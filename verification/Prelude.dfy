/** Values shared by the component models. */
module Prelude {

  datatype Option<+T> = None | Some(value: T)

  function GetOr<T>(o: Option<T>, default: T): T {
    if o.Some? then o.value else default
  }

  // ---------------------------------------------------------------------
  // A Python `dict`: entries in insertion order, keys unique.  Assigning to an existing
  // key keeps its place; a new key goes to the end.
  // ---------------------------------------------------------------------

  type Entries<K, V> = seq<(K, V)>

  ghost predicate UniqueKeys<K, V>(d: Entries<K, V>) {
    forall i, j :: 0 <= i < j < |d| ==> d[i].0 != d[j].0
  }

  function Get<K(==), V>(d: Entries<K, V>, k: K): Option<V> {
    if d == [] then None
    else if d[0].0 == k then Some(d[0].1)
    else Get(d[1..], k)
  }

  predicate Has<K(==), V>(d: Entries<K, V>, k: K) {
    Get(d, k).Some?
  }

  function Put<K(==), V>(d: Entries<K, V>, k: K, v: V): Entries<K, V> {
    if d == [] then [(k, v)]
    else if d[0].0 == k then [(k, v)] + d[1..]
    else [d[0]] + Put(d[1..], k, v)
  }

  function Remove<K(==), V>(d: Entries<K, V>, k: K): Entries<K, V> {
    if d == [] then []
    else if d[0].0 == k then d[1..]
    else [d[0]] + Remove(d[1..], k)
  }

  lemma {:induction false} HasIndex<K, V>(d: Entries<K, V>, k: K)
    ensures Has(d, k) <==> exists i :: 0 <= i < |d| && d[i].0 == k
    ensures Has(d, k) ==> exists i :: 0 <= i < |d| && d[i] == (k, Get(d, k).value)
  {
    if d != [] && d[0].0 != k {
      HasIndex(d[1..], k);
      if Has(d, k) {
        var i :| 0 <= i < |d[1..]| && d[1..][i] == (k, Get(d, k).value);
        assert d[i + 1] == (k, Get(d, k).value);
      } else {
        forall i | 0 <= i < |d|
          ensures d[i].0 != k
        {
          assert i > 0 ==> d[i] == d[1..][i - 1];
        }
      }
    }
  }

  lemma {:induction false} GetAt<K, V>(d: Entries<K, V>, i: nat)
    requires i < |d| && UniqueKeys(d)
    ensures Get(d, d[i].0) == Some(d[i].1)
  {
    if i > 0 {
      GetAt(d[1..], i - 1);
    }
  }

  lemma {:induction false} PutGet<K, V>(d: Entries<K, V>, k: K, v: V, k': K)
    ensures Get(Put(d, k, v), k') == if k' == k then Some(v) else Get(d, k')
  {
    if d != [] && d[0].0 != k {
      PutGet(d[1..], k, v, k');
    }
  }

  lemma {:induction false} PutUnique<K, V>(d: Entries<K, V>, k: K, v: V)
    requires UniqueKeys(d)
    ensures UniqueKeys(Put(d, k, v))
  {
    if d != [] && d[0].0 != k {
      PutUnique(d[1..], k, v);
      var r := Put(d[1..], k, v);
      forall i | 0 <= i < |r|
        ensures r[i].0 != d[0].0
      {
        PutGet(d[1..], k, v, r[i].0);
        HasIndex(r, r[i].0);
        HasIndex(d[1..], r[i].0);
      }
    }
  }

  lemma {:induction false} RemoveGet<K, V>(d: Entries<K, V>, k: K, k': K)
    requires UniqueKeys(d)
    ensures Get(Remove(d, k), k') == if k' == k then None else Get(d, k')
  {
    if d != [] {
      if d[0].0 == k {
        HasIndex(d[1..], k);
      } else {
        RemoveGet(d[1..], k, k');
      }
    }
  }

  lemma {:induction false} RemoveUnique<K, V>(d: Entries<K, V>, k: K)
    requires UniqueKeys(d)
    ensures UniqueKeys(Remove(d, k))
  {
    if d != [] && d[0].0 != k {
      RemoveUnique(d[1..], k);
      var r := Remove(d[1..], k);
      forall i | 0 <= i < |r|
        ensures r[i].0 != d[0].0
      {
        RemoveGet(d[1..], k, r[i].0);
        HasIndex(r, r[i].0);
        HasIndex(d[1..], r[i].0);
      }
    }
  }

  /** A new key goes to the end. */
  lemma {:induction false} PutNew<K, V>(d: Entries<K, V>, k: K, v: V)
    requires !Has(d, k)
    ensures Put(d, k, v) == d + [(k, v)]
  {
    if d != [] {
      PutNew(d[1..], k, v);
      assert d == [d[0]] + d[1..];
    }
  }

  /** `d.update(es)` */
  function PutAll<K(==), V>(d: Entries<K, V>, es: Entries<K, V>): Entries<K, V>
    decreases |es|
  {
    if es == [] then d else PutAll(Put(d, es[0].0, es[0].1), es[1..])
  }

  lemma {:induction false} PutAllNew<K, V>(d: Entries<K, V>, es: Entries<K, V>)
    requires UniqueKeys(es)
    requires forall i :: 0 <= i < |es| ==> !Has(d, es[i].0)
    ensures PutAll(d, es) == d + es
    decreases |es|
  {
    if es != [] {
      var (k, v) := es[0];
      PutNew(d, k, v);
      forall i | 0 <= i < |es[1..]|
        ensures !Has(Put(d, k, v), es[1..][i].0)
      {
        assert es[1..][i] == es[i + 1];
        PutGet(d, k, v, es[i + 1].0);
      }
      PutAllNew(Put(d, k, v), es[1..]);
      assert d + [(k, v)] + es[1..] == d + es;
    }
  }

  lemma {:induction false} PutAllAppend<K, V>(d: Entries<K, V>, es: Entries<K, V>, k: K, v: V)
    ensures PutAll(d, es + [(k, v)]) == Put(PutAll(d, es), k, v)
    decreases |es|
  {
    if es != [] {
      PutAllAppend(Put(d, es[0].0, es[0].1), es[1..], k, v);
      assert (es + [(k, v)])[1..] == es[1..] + [(k, v)];
    }
  }

  lemma {:induction false} PutAllUnique<K, V>(d: Entries<K, V>, es: Entries<K, V>)
    requires UniqueKeys(d)
    ensures UniqueKeys(PutAll(d, es))
    decreases |es|
  {
    if es != [] {
      PutUnique(d, es[0].0, es[0].1);
      PutAllUnique(Put(d, es[0].0, es[0].1), es[1..]);
    }
  }
}

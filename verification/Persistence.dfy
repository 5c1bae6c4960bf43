/** The JSON codec for service state (kumostack/core/persistence.py). */
module Persistence {
  import opened Prelude
  import opened PyValue
  import opened Text

  /** A JSON document; an object lists its members in text order. */
  datatype Json =
    | JNull
    | JBool(b: bool)
    | JInt(i: int)
    | JFloat(mantissa: int, exponent: int)
    | JStr(s: string)
    | JArr(items: seq<Json>)
    | JObj(members: seq<(string, Json)>)

  /** Library functions the codec calls: `repr` and `ast.literal_eval` on dictionary keys,
      base64 (section 4 of RFC 4648), the text of a float, and whether an entry of a scoped
      store belongs to the request that decodes. */
  datatype Library = Library(
    repr: Value -> string,
    literal: string -> Option<Value>,
    b64: seq<nat> -> string,
    unb64: string -> Option<seq<nat>>,
    floatText: (int, int) -> string,
    account: string,
    region: string
  )

  /** Values that Python accepts as dictionary keys. */
  ghost predicate Hashable(k: Value)
    decreases k
  {
    match k
    case Null => true
    case Bool(_) => true
    case Int(_) => true
    case Float(_, _) => true
    case Str(_) => true
    case Bytes(_) => true
    case Tuple(items) => forall i :: 0 <= i < |items| ==> Hashable(items[i])
    case _ => false
  }

  ghost predicate Inverse(lib: Library) {
    (forall k :: Hashable(k) ==> lib.literal(lib.repr(k)) == Some(k)) &&
    (forall bytes :: lib.unb64(lib.b64(bytes)) == Some(bytes))
  }

  const ACCOUNT_REGION_SCOPED := "__account_region_scoped__"
  const SCOPED := "__scoped__"
  const BYTES := "__bytes__"
  const NUL: char := '\0'

  type Members<V> = seq<(string, V)>

  // ---------------------------------------------------------------------
  // Encoding
  // ---------------------------------------------------------------------

  /** The member name json.dump gives a plain dictionary key; other keys raise TypeError. */
  function KeyText(lib: Library, k: Value): Option<string> {
    match k
    case Str(s) => Some(s)
    case Null => Some("null")
    case Bool(b) => Some(if b then "true" else "false")
    case Int(i) => Some(if i < 0 then "-" + Decimal(-i) else Decimal(i))
    case Float(m, e) => Some(lib.floatText(m, e))
    case _ => None
  }

  /** Member names and values of a plain dictionary. */
  function PlainMembers(lib: Library, es: seq<(Value, Value)>): (r: Option<Members<Value>>)
    ensures r.Some? ==> |r.value| == |es|
    ensures r.Some? ==> forall i :: 0 <= i < |es| ==>
              KeyText(lib, es[i].0) == Some(r.value[i].0) && r.value[i].1 == es[i].1
  {
    if es == [] then Some([])
    else
      var name, rest := KeyText(lib, es[0].0), PlainMembers(lib, es[1..]);
      if name.None? || rest.None? then None else Some([(name.value, es[0].1)] + rest.value)
  }

  function AccountText(lib: Library, k: (string, Value)): string {
    k.0 + [NUL] + lib.repr(k.1)
  }

  function RegionText(lib: Library, k: (string, string, Value)): string {
    k.0 + [NUL] + k.1 + [NUL] + lib.repr(k.2)
  }

  function AccountNamer(lib: Library): ((string, Value)) -> string {
    k => AccountText(lib, k)
  }

  function RegionNamer(lib: Library): ((string, string, Value)) -> string {
    k => RegionText(lib, k)
  }

  function Named<K>(es: seq<(K, Value)>, name: K -> string): (r: Members<Value>)
    ensures |r| == |es| && forall i :: 0 <= i < |es| ==> r[i] == (name(es[i].0), es[i].1)
  {
    seq(|es|, i requires 0 <= i < |es| => (name(es[i].0), es[i].1))
  }

  ghost predicate Inside(ms: Members<Value>, v: Value) {
    forall i :: 0 <= i < |ms| ==> ms[i].1 < v
  }

  lemma {:induction false} PutAllInside(d: Members<Value>, ms: Members<Value>, v: Value)
    requires Inside(d, v) && Inside(ms, v)
    ensures Inside(PutAll(d, ms), v)
    decreases |ms|
  {
    if ms != [] {
      PutInside(d, ms[0].0, ms[0].1, v);
      PutAllInside(Put(d, ms[0].0, ms[0].1), ms[1..], v);
    }
  }

  lemma {:induction false} PutInside(d: Members<Value>, k: string, x: Value, v: Value)
    requires Inside(d, v) && x < v
    ensures Inside(Put(d, k, x), v)
  {
    if d != [] && d[0].0 != k {
      PutInside(d[1..], k, x, v);
    }
  }

  /** What json.dump writes, with `_json_default` as its fallback; None is TypeError. */
  function Encode(lib: Library, v: Value): Option<Json>
    decreases v, 1, 0
  {
    match v
    case Null => Some(JNull)
    case Bool(b) => Some(JBool(b))
    case Int(i) => Some(JInt(i))
    case Float(m, e) => Some(JFloat(m, e))
    case Str(s) => Some(JStr(s))
    case Bytes(bytes) => Some(JObj([(BYTES, JStr(lib.b64(bytes)))]))
    case List(items) => Array(EncodeSeq(lib, items, v))
    case Tuple(items) => Array(EncodeSeq(lib, items, v))
    case Set(_) => None
    case Dict(es) =>
      var ms := PlainMembers(lib, es);
      if ms.None? then None
      else
        assert forall i :: 0 <= i < |es| ==> es[i].1 < es[i] < v;
        Object(EncodeMembers(lib, ms.value, v))
    case Scoped(es) =>
      var ms := Named(es, AccountNamer(lib));
      assert forall i :: 0 <= i < |es| ==> es[i].1 < es[i] < v;
      PutAllInside([], ms, v);
      Tagged(SCOPED, EncodeMembers(lib, PutAll([], ms), v))
    case RegionScoped(es) =>
      var ms := Named(es, RegionNamer(lib));
      assert forall i :: 0 <= i < |es| ==> es[i].1 < es[i] < v;
      PutAllInside([], ms, v);
      Tagged(ACCOUNT_REGION_SCOPED, EncodeMembers(lib, PutAll([], ms), v))
  }

  function Array(items: Option<seq<Json>>): Option<Json> {
    if items.None? then None else Some(JArr(items.value))
  }

  function Object(ms: Option<Members<Json>>): Option<Json> {
    if ms.None? then None else Some(JObj(ms.value))
  }

  function Tagged(tag: string, data: Option<Members<Json>>): Option<Json> {
    if data.None? then None else Some(JObj([(tag, JBool(true)), ("data", JObj(data.value))]))
  }

  function EncodeSeq(lib: Library, items: seq<Value>, ghost parent: Value): (r: Option<seq<Json>>)
    requires forall i :: 0 <= i < |items| ==> items[i] < parent
    decreases parent, 0, |items|
  {
    if items == [] then Some([])
    else
      var first, rest := Encode(lib, items[0]), EncodeSeq(lib, items[1..], parent);
      if first.None? || rest.None? then None else Some([first.value] + rest.value)
  }

  function EncodeMembers(lib: Library, ms: Members<Value>, ghost parent: Value): Option<Members<Json>>
    requires Inside(ms, parent)
    decreases parent, 0, |ms|
  {
    if ms == [] then Some([])
    else
      var first, rest := Encode(lib, ms[0].1), EncodeMembers(lib, ms[1..], parent);
      if first.None? || rest.None? then None else Some([(ms[0].0, first.value)] + rest.value)
  }

  // ---------------------------------------------------------------------
  // Decoding
  // ---------------------------------------------------------------------

  /** Python truth value; a scoped store is true when the current request sees an entry. */
  predicate Truthy(lib: Library, v: Value) {
    match v
    case Null => false
    case Bool(b) => b
    case Int(i) => i != 0
    case Float(m, _) => m != 0
    case Str(s) => s != ""
    case Bytes(bytes) => bytes != []
    case List(items) => items != []
    case Tuple(items) => items != []
    case Set(items) => items != []
    case Dict(es) => es != []
    case Scoped(es) => exists i :: 0 <= i < |es| && es[i].0.0 == lib.account
    case RegionScoped(es) => exists i :: 0 <= i < |es| && es[i].0.0 == lib.account && es[i].0.1 == lib.region
  }

  /** The values that are false, whatever scoped stores hold for other requests. */
  lemma FalseExactly(lib: Library, v: Value)
    ensures !Truthy(lib, v) <==>
            v in {Null, Bool(false), Int(0), Str(""), Bytes([]), List([]), Tuple([]), Set([]), Dict([])} ||
            (v.Float? && v.mantissa == 0) ||
            (v.Scoped? && forall e :: e in v.perAccount ==> e.0.0 != lib.account) ||
            (v.RegionScoped? && forall e :: e in v.perRegion ==> e.0.0 != lib.account || e.0.1 != lib.region)
  {
    match v
    case Scoped(es) =>
      forall e | e in es
        ensures exists i :: 0 <= i < |es| && es[i] == e
      {
      }
    case RegionScoped(es) =>
      forall e | e in es
        ensures exists i :: 0 <= i < |es| && es[i] == e
      {
      }
    case _ =>
  }

  predicate HasTag(lib: Library, d: seq<(Value, Value)>, tag: string) {
    var t := Get(d, Str(tag));
    t.Some? && Truthy(lib, t.value)
  }

  /** `ast.literal_eval`, falling back to the text itself. */
  function RestoreKey(lib: Library, text: string): Value {
    GetOr(lib.literal(text), Str(text))
  }

  function ParseAccountKey(lib: Library, text: string): Option<(string, Value)> {
    var parts := SplitMax(text, NUL, 1);
    if |parts| == 2 then Some((parts[0], RestoreKey(lib, parts[1]))) else None
  }

  function ParseRegionKey(lib: Library, text: string): Option<(string, string, Value)> {
    var parts := SplitMax(text, NUL, 2);
    if |parts| == 3 then Some((parts[0], parts[1], RestoreKey(lib, parts[2]))) else None
  }

  function AccountParser(lib: Library): string -> Option<(string, Value)> {
    t => ParseAccountKey(lib, t)
  }

  function RegionParser(lib: Library): string -> Option<(string, string, Value)> {
    t => ParseRegionKey(lib, t)
  }

  /** Rebuilds a scoped store from the members of its "data" object. */
  function Restore<K(==)>(es: seq<(Value, Value)>, parse: string -> Option<K>, d: Entries<K, Value>):
    Option<Entries<K, Value>>
    decreases |es|
  {
    if es == [] then Some(d)
    else if !es[0].0.Str? then None
    else
      var k := parse(es[0].0.s);
      if k.None? then None else Restore(es[1..], parse, Put(d, k.value, es[0].1))
  }

  /** `_json_object_hook`; None when it raises. */
  function Hook(lib: Library, d: seq<(Value, Value)>): Option<Value> {
    if HasTag(lib, d, ACCOUNT_REGION_SCOPED) then
      var data := Get(d, Str("data"));
      if data.None? || !data.value.Dict? then None
      else
        var r := Restore(data.value.entries, RegionParser(lib), []);
        if r.None? then None else Some(RegionScoped(r.value))
    else if HasTag(lib, d, SCOPED) then
      var data := Get(d, Str("data"));
      if data.None? || !data.value.Dict? then None
      else
        var r := Restore(data.value.entries, AccountParser(lib), []);
        if r.None? then None else Some(Scoped(r.value))
    else if Has(d, Str(BYTES)) then
      var text := Get(d, Str(BYTES)).value;
      if !text.Str? then None
      else
        var bytes := lib.unb64(text.s);
        if bytes.None? then None else Some(Bytes(bytes.value))
    else Some(Dict(d))
  }

  /** json.load: objects are rebuilt innermost first, each passed through the hook. */
  function Decode(lib: Library, j: Json): Option<Value>
    decreases j, 1
  {
    match j
    case JNull => Some(Null)
    case JBool(b) => Some(Bool(b))
    case JInt(i) => Some(Int(i))
    case JFloat(m, e) => Some(Float(m, e))
    case JStr(s) => Some(Str(s))
    case JArr(items) =>
      var r := DecodeSeq(lib, items);
      if r.None? then None else Some(List(r.value))
    case JObj(ms) =>
      var r := DecodeMembers(lib, ms);
      if r.None? then None else Hook(lib, PutAll([], r.value))
  }

  function DecodeSeq(lib: Library, items: seq<Json>): Option<seq<Value>>
    decreases items, 0
  {
    if items == [] then Some([])
    else
      var first, rest := Decode(lib, items[0]), DecodeSeq(lib, items[1..]);
      if first.None? || rest.None? then None else Some([first.value] + rest.value)
  }

  function DecodeMembers(lib: Library, ms: Members<Json>): Option<seq<(Value, Value)>>
    decreases ms, 0
  {
    if ms == [] then Some([])
    else
      var m := ms[0];
      assert m.1 < m;
      var first, rest := Decode(lib, m.1), DecodeMembers(lib, ms[1..]);
      if first.None? || rest.None? then None else Some([(Str(m.0), first.value)] + rest.value)
  }

  // ---------------------------------------------------------------------
  // Saving and loading a value
  // ---------------------------------------------------------------------

  function Back(lib: Library, v: Value): Option<Value> {
    var j := Encode(lib, v);
    if j.None? then None else Decode(lib, j.value)
  }

  /** What holds of any Python value: dictionary keys are hashable and distinct. */
  ghost predicate IsPython(v: Value)
    decreases v
  {
    match v
    case List(items) => forall i :: 0 <= i < |items| ==> IsPython(items[i])
    case Tuple(items) => forall i :: 0 <= i < |items| ==> IsPython(items[i])
    case Set(items) => forall i :: 0 <= i < |items| ==> IsPython(items[i])
    case Dict(es) =>
      UniqueKeys(es) && forall i :: 0 <= i < |es| ==> Hashable(es[i].0) && (assert es[i].1 < es[i]; IsPython(es[i].1))
    case Scoped(es) =>
      UniqueKeys(es) && forall i :: 0 <= i < |es| ==> Hashable(es[i].0.1) && (assert es[i].1 < es[i]; IsPython(es[i].1))
    case RegionScoped(es) =>
      UniqueKeys(es) && forall i :: 0 <= i < |es| ==> Hashable(es[i].0.2) && (assert es[i].1 < es[i]; IsPython(es[i].1))
    case _ => true
  }

  /** No tuple or set; plain dictionaries have string keys and no active marker key; the
      accounts and regions of scoped keys contain no NUL. */
  ghost predicate Restorable(lib: Library, v: Value)
    decreases v
  {
    match v
    case List(items) => forall i :: 0 <= i < |items| ==> Restorable(lib, items[i])
    case Tuple(_) => false
    case Set(_) => false
    case Dict(es) =>
      !HasTag(lib, es, ACCOUNT_REGION_SCOPED) && !HasTag(lib, es, SCOPED) && !Has(es, Str(BYTES)) &&
      forall i :: 0 <= i < |es| ==> es[i].0.Str? && (assert es[i].1 < es[i]; Restorable(lib, es[i].1))
    case Scoped(es) =>
      forall i :: 0 <= i < |es| ==> NUL !in es[i].0.0 && (assert es[i].1 < es[i]; Restorable(lib, es[i].1))
    case RegionScoped(es) =>
      forall i :: 0 <= i < |es| ==>
        NUL !in es[i].0.0 && NUL !in es[i].0.1 && (assert es[i].1 < es[i]; Restorable(lib, es[i].1))
    case _ => true
  }

  function BackItems(lib: Library, items: seq<Value>): Option<seq<Value>> {
    if items == [] then Some([])
    else
      var first, rest := Back(lib, items[0]), BackItems(lib, items[1..]);
      if first.None? || rest.None? then None else Some([first.value] + rest.value)
  }

  function BackMembers(lib: Library, ms: Members<Value>): Option<seq<(Value, Value)>> {
    if ms == [] then Some([])
    else
      var first, rest := Back(lib, ms[0].1), BackMembers(lib, ms[1..]);
      if first.None? || rest.None? then None else Some([(Str(ms[0].0), first.value)] + rest.value)
  }

  lemma {:induction false} DecodeEncodedSeq(lib: Library, items: seq<Value>, parent: Value)
    requires forall i :: 0 <= i < |items| ==> items[i] < parent
    ensures BackItems(lib, items) ==
            var js := EncodeSeq(lib, items, parent); if js.None? then None else DecodeSeq(lib, js.value)
  {
    if items != [] {
      DecodeEncodedSeq(lib, items[1..], parent);
      var first, rest := Encode(lib, items[0]), EncodeSeq(lib, items[1..], parent);
      if first.Some? && rest.Some? {
        assert ([first.value] + rest.value)[1..] == rest.value;
      }
    }
  }

  lemma {:induction false} DecodeEncodedMembers(lib: Library, ms: Members<Value>, parent: Value)
    requires Inside(ms, parent)
    ensures BackMembers(lib, ms) ==
            var js := EncodeMembers(lib, ms, parent); if js.None? then None else DecodeMembers(lib, js.value)
  {
    if ms != [] {
      DecodeEncodedMembers(lib, ms[1..], parent);
      var first, rest := Encode(lib, ms[0].1), EncodeMembers(lib, ms[1..], parent);
      if first.Some? && rest.Some? {
        assert ([(ms[0].0, first.value)] + rest.value)[1..] == rest.value;
      }
    }
  }

  lemma {:induction false} BackItemsExact(lib: Library, items: seq<Value>)
    ensures BackItems(lib, items) == Some(items) <==>
            forall i :: 0 <= i < |items| ==> Back(lib, items[i]) == Some(items[i])
  {
    if items != [] {
      BackItemsExact(lib, items[1..]);
      assert items == [items[0]] + items[1..];
      var rest := BackItems(lib, items[1..]);
      if BackItems(lib, items) == Some(items) {
        assert rest.value == items[1..];
        forall i | 0 <= i < |items|
          ensures Back(lib, items[i]) == Some(items[i])
        {
          assert i > 0 ==> items[i] == items[1..][i - 1];
        }
      }
    }
  }

  lemma {:induction false} BackMembersAt(lib: Library, ms: Members<Value>)
    ensures BackMembers(lib, ms).Some? <==> forall i :: 0 <= i < |ms| ==> Back(lib, ms[i].1).Some?
    ensures BackMembers(lib, ms).Some? ==>
              |BackMembers(lib, ms).value| == |ms| &&
              forall i :: 0 <= i < |ms| ==> BackMembers(lib, ms).value[i] == (Str(ms[i].0), Back(lib, ms[i].1).value)
  {
    if ms != [] {
      BackMembersAt(lib, ms[1..]);
      assert forall i :: 0 < i < |ms| ==> ms[i] == ms[1..][i - 1];
      if BackMembers(lib, ms[1..]).Some? && Back(lib, ms[0].1).Some? {
        forall i | 0 <= i < |ms|
          ensures Back(lib, ms[i].1).Some?
        {
          assert i > 0 ==> ms[i] == ms[1..][i - 1];
        }
      }
    }
  }

  // ---------------------------------------------------------------------
  // Scoped stores
  // ---------------------------------------------------------------------

  function BackKeyed<K(==)>(lib: Library, es: Entries<K, Value>, name: K -> string, parse: string -> Option<K>):
    Option<Entries<K, Value>>
  {
    var r := BackMembers(lib, PutAll([], Named(es, name)));
    if r.None? then None else Restore(r.value, parse, [])
  }

  lemma {:induction false} RestoreParsed<K>(r: seq<(Value, Value)>, parse: string -> Option<K>,
                                            d: Entries<K, Value>, es: Entries<K, Value>)
    requires |es| == |r|
    requires forall i :: 0 <= i < |r| ==> r[i].0.Str? && parse(r[i].0.s) == Some(es[i].0) && r[i].1 == es[i].1
    ensures Restore(r, parse, d) == Some(PutAll(d, es))
    decreases |r|
  {
    if r != [] {
      RestoreParsed(r[1..], parse, Put(d, es[0].0, es[0].1), es[1..]);
    }
  }

  /** Entries under the same keys, each with the value that comes back. */
  ghost predicate Returned<K>(lib: Library, es: Entries<K, Value>, es': Entries<K, Value>) {
    |es'| == |es| &&
    forall i :: 0 <= i < |es| ==> es'[i].0 == es[i].0 && Back(lib, es[i].1) == Some(es'[i].1)
  }

  ghost predicate AllBack<K>(lib: Library, es: Entries<K, Value>) {
    forall i :: 0 <= i < |es| ==> Back(lib, es[i].1) == Some(es[i].1)
  }

  lemma ReturnedSame<K>(lib: Library, es: Entries<K, Value>, es': Entries<K, Value>)
    requires Returned(lib, es, es')
    ensures es' == es <==> AllBack(lib, es)
  {
    if AllBack(lib, es) {
      forall i | 0 <= i < |es|
        ensures es'[i] == es[i]
      {
        assert Back(lib, es[i].1) == Some(es[i].1);
      }
    }
  }

  /** The keys of `es` with the values of `r`. */
  function Rekeyed<K>(es: Entries<K, Value>, r: seq<(Value, Value)>): (es': Entries<K, Value>)
    requires |r| == |es|
    ensures |es'| == |es| && forall i :: 0 <= i < |es| ==> es'[i] == (es[i].0, r[i].1)
  {
    seq(|es|, i requires 0 <= i < |es| => (es[i].0, r[i].1))
  }

  lemma RestoreRekeyed<K>(es: Entries<K, Value>, name: K -> string, parse: string -> Option<K>, r: seq<(Value, Value)>)
    requires UniqueKeys(es) && |r| == |es|
    requires forall i :: 0 <= i < |es| ==> parse(name(es[i].0)) == Some(es[i].0) && r[i].0 == Str(name(es[i].0))
    ensures Restore(r, parse, []) == Some(Rekeyed(es, r))
  {
    var es' := Rekeyed(es, r);
    forall i, j | 0 <= i < j < |es'|
      ensures es'[i].0 != es'[j].0
    {
      assert es[i].0 != es[j].0;
    }
    RestoreAll(r, parse, es');
  }

  /** Keys that the text form distinguishes come back with their own values. */
  lemma KeyedForth<K>(lib: Library, es: Entries<K, Value>, name: K -> string, parse: string -> Option<K>)
    requires UniqueKeys(es)
    requires forall i :: 0 <= i < |es| ==> parse(name(es[i].0)) == Some(es[i].0)
    ensures BackKeyed(lib, es, name, parse) == Some(es) <==> AllBack(lib, es)
  {
    var ms := Named(es, name);
    NamedInOrder(es, name, parse);
    BackMembersAt(lib, ms);
    var r := BackMembers(lib, ms);
    if r.Some? {
      var es' := Rekeyed(es, r.value);
      assert Returned(lib, es, es');
      RestoreRekeyed(es, name, parse, r.value);
      ReturnedSame(lib, es, es');
    } else {
      var i :| 0 <= i < |ms| && Back(lib, ms[i].1).None?;
      assert Back(lib, es[i].1).None?;
    }
  }

  /** Distinguished keys are written one after the other, none over another. */
  lemma NamedInOrder<K>(es: Entries<K, Value>, name: K -> string, parse: string -> Option<K>)
    requires UniqueKeys(es)
    requires forall i :: 0 <= i < |es| ==> parse(name(es[i].0)) == Some(es[i].0)
    ensures PutAll([], Named(es, name)) == Named(es, name)
  {
    PutAllNew<string, Value>([], Named(es, name));
    assert [] + Named(es, name) == Named(es, name);
  }

  lemma RestoreAll<K>(r: seq<(Value, Value)>, parse: string -> Option<K>, es: Entries<K, Value>)
    requires UniqueKeys(es) && |es| == |r|
    requires forall i :: 0 <= i < |r| ==> r[i].0.Str? && parse(r[i].0.s) == Some(es[i].0) && r[i].1 == es[i].1
    ensures Restore(r, parse, []) == Some(es)
  {
    RestoreParsed(r, parse, [], es);
    PutAllNew<K, Value>([], es);
    assert [] + es == es;
  }

  /** Every restored key is one that `parse` yields. */
  lemma {:induction false} RestoredKeys<K>(r: seq<(Value, Value)>, parse: string -> Option<K>,
                                           d: Entries<K, Value>, ok: K -> bool)
    requires forall t :: parse(t).Some? ==> ok(parse(t).value)
    requires forall i :: 0 <= i < |d| ==> ok(d[i].0)
    ensures Restore(r, parse, d).Some? ==>
              forall i :: 0 <= i < |Restore(r, parse, d).value| ==> ok(Restore(r, parse, d).value[i].0)
    decreases |r|
  {
    if r != [] && r[0].0.Str? && parse(r[0].0.s).Some? {
      PutKeys(d, parse(r[0].0.s).value, r[0].1, ok);
      RestoredKeys(r[1..], parse, Put(d, parse(r[0].0.s).value, r[0].1), ok);
    }
  }

  lemma {:induction false} PutKeys<K, V>(d: Entries<K, V>, k: K, v: V, ok: K -> bool)
    requires ok(k) && forall i :: 0 <= i < |d| ==> ok(d[i].0)
    ensures forall i :: 0 <= i < |Put(d, k, v)| ==> ok(Put(d, k, v)[i].0)
  {
    if d != [] && d[0].0 != k {
      PutKeys(d[1..], k, v, ok);
    }
  }

  lemma {:induction false} PutAllKeys<K, V>(d: Entries<K, V>, es: Entries<K, V>, ok: K -> bool)
    requires forall i :: 0 <= i < |d| ==> ok(d[i].0)
    requires forall i :: 0 <= i < |es| ==> ok(es[i].0)
    ensures forall i :: 0 <= i < |PutAll(d, es)| ==> ok(PutAll(d, es)[i].0)
    decreases |es|
  {
    if es != [] {
      PutKeys(d, es[0].0, es[0].1, ok);
      PutAllKeys(Put(d, es[0].0, es[0].1), es[1..], ok);
    }
  }

  /** The text form of an account-scoped key is injective where no account contains NUL. */
  lemma AccountKeyExact(lib: Library, k: (string, Value))
    requires Inverse(lib) && Hashable(k.1)
    ensures ParseAccountKey(lib, AccountText(lib, k)) == Some(k) <==> NUL !in k.0
  {
    var text := AccountText(lib, k);
    if NUL !in k.0 {
      SplitStep(k.0, lib.repr(k.1), NUL, 1);
    }
  }

  /** The text form of a region-scoped key is injective where no account or region contains NUL. */
  lemma RegionKeyExact(lib: Library, k: (string, string, Value))
    requires Inverse(lib) && Hashable(k.2)
    ensures ParseRegionKey(lib, RegionText(lib, k)) == Some(k) <==> NUL !in k.0 && NUL !in k.1
  {
    var text := RegionText(lib, k);
    if NUL !in k.0 && NUL !in k.1 {
      var rest := k.1 + [NUL] + lib.repr(k.2);
      assert text == k.0 + [NUL] + rest;
      SplitStep(k.0, rest, NUL, 2);
      SplitStep(k.1, lib.repr(k.2), NUL, 1);
    }
  }

  lemma TaggedDecodes(lib: Library, tag: string, ms: Members<Json>)
    requires tag == SCOPED || tag == ACCOUNT_REGION_SCOPED
    requires forall i :: 0 <= i < |ms| ==> NUL in ms[i].0
    ensures Decode(lib, Tagged(tag, Some(ms)).value) ==
            var r := DecodeMembers(lib, ms);
            if r.None? then None else Hook(lib, [(Str(tag), Bool(true)), (Str("data"), Dict(PutAll([], r.value)))])
  {
    var r := DecodeMembers(lib, ms);
    var flag, data := (tag, JBool(true)), ("data", JObj(ms));
    assert [flag, data] == [flag] + [data];
    DecodeCons(lib, flag, [data]);
    DecodeCons(lib, data, []);
    assert [data] + [] == [data];
    if r.Some? {
      DecodedNames(lib, ms);
      UntaggedHook(lib, r.value);
      var d := Dict(PutAll([], r.value));
      assert Decode(lib, JObj(ms)) == Some(d);
      var outer := [(Str(tag), Bool(true)), (Str("data"), d)];
      assert DecodeMembers(lib, [flag, data]).value == outer;
      PutAllNew<Value, Value>([], outer);
      assert [] + outer == outer;
    }
  }

  lemma DecodeCons(lib: Library, m: (string, Json), rest: Members<Json>)
    ensures DecodeMembers(lib, [m] + rest) ==
            if Decode(lib, m.1).None? || DecodeMembers(lib, rest).None? then None
            else Some([(Str(m.0), Decode(lib, m.1).value)] + DecodeMembers(lib, rest).value)
  {
    assert ([m] + rest)[1..] == rest;
  }

  lemma {:induction false} DecodedNames(lib: Library, ms: Members<Json>)
    requires DecodeMembers(lib, ms).Some?
    ensures |DecodeMembers(lib, ms).value| == |ms|
    ensures forall i :: 0 <= i < |ms| ==> DecodeMembers(lib, ms).value[i].0 == Str(ms[i].0)
  {
    if ms != [] {
      DecodedNames(lib, ms[1..]);
    }
  }

  /** Names with NUL in them are never taken for markers. */
  lemma UntaggedHook(lib: Library, es: seq<(Value, Value)>)
    requires forall i :: 0 <= i < |es| ==> es[i].0.Str? && NUL in es[i].0.s
    ensures Hook(lib, PutAll([], es)) == Some(Dict(PutAll([], es)))
  {
    var d := PutAll([], es);
    PutAllKeys([], es, (k: Value) => k.Str? && NUL in k.s);
    MarkersHaveNoNul();
    NotAName(d, ACCOUNT_REGION_SCOPED);
    NotAName(d, SCOPED);
    NotAName(d, BYTES);
  }

  lemma MarkersHaveNoNul()
    ensures NUL !in ACCOUNT_REGION_SCOPED && NUL !in SCOPED && NUL !in BYTES
  {
  }

  lemma NotAName(d: seq<(Value, Value)>, tag: string)
    requires NUL !in tag
    requires forall i :: 0 <= i < |d| ==> d[i].0.Str? && NUL in d[i].0.s
    ensures Get(d, Str(tag)) == None
  {
    HasIndex(d, Str(tag));
  }

  lemma NamesContainNul(ms: Members<Value>)
    requires forall i :: 0 <= i < |ms| ==> NUL in ms[i].0
    ensures forall i :: 0 <= i < |PutAll([], ms)| ==> NUL in PutAll([], ms)[i].0
  {
    PutAllKeys([], ms, (name: string) => NUL in name);
  }

  lemma {:induction false} EncodedNames(lib: Library, ms: Members<Value>, parent: Value)
    requires Inside(ms, parent) && EncodeMembers(lib, ms, parent).Some?
    ensures |EncodeMembers(lib, ms, parent).value| == |ms|
    ensures forall i :: 0 <= i < |ms| ==> EncodeMembers(lib, ms, parent).value[i].0 == ms[i].0
  {
    if ms != [] {
      EncodedNames(lib, ms[1..], parent);
    }
  }

  /** Decoding the tagged object rebuilds the store from the members that come back. */
  lemma TaggedBack(lib: Library, tag: string, ms: Members<Value>, parent: Value)
    requires tag == SCOPED || tag == ACCOUNT_REGION_SCOPED
    requires Inside(ms, parent) && UniqueKeys(ms) && forall i :: 0 <= i < |ms| ==> NUL in ms[i].0
    ensures var j := Tagged(tag, EncodeMembers(lib, ms, parent)); var r := BackMembers(lib, ms);
            if r.None? then j.None? || Decode(lib, j.value).None?
            else j.Some? && Decode(lib, j.value) ==
                   Hook(lib, [(Str(tag), Bool(true)), (Str("data"), Dict(r.value))])
  {
    var js := EncodeMembers(lib, ms, parent);
    DecodeEncodedMembers(lib, ms, parent);
    if js.Some? {
      EncodedNames(lib, ms, parent);
      TaggedDecodes(lib, tag, js.value);
      var r := BackMembers(lib, ms);
      if r.Some? {
        BackMembersAt(lib, ms);
        forall i, j | 0 <= i < j < |r.value|
          ensures r.value[i].0 != r.value[j].0
        {
          assert ms[i].0 != ms[j].0;
        }
        PutAllNew<Value, Value>([], r.value);
        assert [] + r.value == r.value;
      }
    }
  }

  lemma GetOfTwo(k0: string, v0: Value, k1: string, v1: Value, k: string)
    ensures Get([(Str(k0), v0), (Str(k1), v1)], Str(k)) ==
            if k == k0 then Some(v0) else if k == k1 then Some(v1) else None
  {
    var d := [(Str(k0), v0), (Str(k1), v1)];
    assert d[1..] == [(Str(k1), v1)] && d[1..][1..] == [];
    assert Get(d[1..], Str(k)) == if k == k1 then Some(v1) else None;
  }

  lemma HookScoped(lib: Library, d: seq<(Value, Value)>)
    ensures Hook(lib, [(Str(SCOPED), Bool(true)), (Str("data"), Dict(d))]) ==
            var r := Restore(d, AccountParser(lib), []); if r.None? then None else Some(Scoped(r.value))
  {
    GetOfTwo(SCOPED, Bool(true), "data", Dict(d), ACCOUNT_REGION_SCOPED);
    GetOfTwo(SCOPED, Bool(true), "data", Dict(d), SCOPED);
    GetOfTwo(SCOPED, Bool(true), "data", Dict(d), "data");
  }

  lemma HookRegionScoped(lib: Library, d: seq<(Value, Value)>)
    ensures Hook(lib, [(Str(ACCOUNT_REGION_SCOPED), Bool(true)), (Str("data"), Dict(d))]) ==
            var r := Restore(d, RegionParser(lib), []); if r.None? then None else Some(RegionScoped(r.value))
  {
    GetOfTwo(ACCOUNT_REGION_SCOPED, Bool(true), "data", Dict(d), ACCOUNT_REGION_SCOPED);
    GetOfTwo(ACCOUNT_REGION_SCOPED, Bool(true), "data", Dict(d), "data");
  }

  /** The named members of a store can be encoded as the members of a tagged object. */
  lemma NamedMembers<K>(es: Entries<K, Value>, name: K -> string, v: Value)
    requires forall i :: 0 <= i < |es| ==> es[i].1 < v && NUL in name(es[i].0)
    ensures var ms := PutAll([], Named(es, name));
            Inside(ms, v) && UniqueKeys(ms) && forall i :: 0 <= i < |ms| ==> NUL in ms[i].0
  {
    var named := Named(es, name);
    PutAllInside([], named, v);
    NamesContainNul(named);
    PutAllUnique<string, Value>([], named);
  }

  lemma BackScopedMembers(lib: Library, es: seq<((string, Value), Value)>, ms: Members<Value>)
    requires ms == PutAll([], Named(es, AccountNamer(lib)))
    ensures Inside(ms, Scoped(es)) && UniqueKeys(ms) && forall i :: 0 <= i < |ms| ==> NUL in ms[i].0
    ensures Encode(lib, Scoped(es)) == Tagged(SCOPED, EncodeMembers(lib, ms, Scoped(es)))
  {
    NamedMembers(es, AccountNamer(lib), Scoped(es));
  }

  lemma BackScoped(lib: Library, es: seq<((string, Value), Value)>)
    ensures Back(lib, Scoped(es)) ==
            var r := BackKeyed(lib, es, AccountNamer(lib), AccountParser(lib));
            if r.None? then None else Some(Scoped(r.value))
  {
    var ms := PutAll([], Named(es, AccountNamer(lib)));
    BackScopedMembers(lib, es, ms);
    TaggedBack(lib, SCOPED, ms, Scoped(es));
    var r := BackMembers(lib, ms);
    if r.Some? {
      HookScoped(lib, r.value);
    }
  }

  lemma BackRegionScopedMembers(lib: Library, es: seq<((string, string, Value), Value)>, ms: Members<Value>)
    requires ms == PutAll([], Named(es, RegionNamer(lib)))
    ensures Inside(ms, RegionScoped(es)) && UniqueKeys(ms) && forall i :: 0 <= i < |ms| ==> NUL in ms[i].0
    ensures Encode(lib, RegionScoped(es)) == Tagged(ACCOUNT_REGION_SCOPED, EncodeMembers(lib, ms, RegionScoped(es)))
  {
    NamedMembers(es, RegionNamer(lib), RegionScoped(es));
  }

  lemma BackRegionScoped(lib: Library, es: seq<((string, string, Value), Value)>)
    ensures Back(lib, RegionScoped(es)) ==
            var r := BackKeyed(lib, es, RegionNamer(lib), RegionParser(lib));
            if r.None? then None else Some(RegionScoped(r.value))
  {
    var ms := PutAll([], Named(es, RegionNamer(lib)));
    BackRegionScopedMembers(lib, es, ms);
    TaggedBack(lib, ACCOUNT_REGION_SCOPED, ms, RegionScoped(es));
    var r := BackMembers(lib, ms);
    if r.Some? {
      HookRegionScoped(lib, r.value);
    }
  }

  lemma BackDict(lib: Library, es: seq<(Value, Value)>)
    ensures Back(lib, Dict(es)) ==
            var ms := PlainMembers(lib, es);
            if ms.None? then None
            else
              var r := BackMembers(lib, ms.value);
              if r.None? then None else Hook(lib, PutAll([], r.value))
  {
    var v := Dict(es);
    var ms := PlainMembers(lib, es);
    assert forall i :: 0 <= i < |es| ==> es[i].1 < es[i] < v;
    if ms.Some? {
      DecodeEncodedMembers(lib, ms.value, v);
    }
  }

  // ---------------------------------------------------------------------
  // The round trip
  // ---------------------------------------------------------------------

  /** A saved value loads as itself exactly when it is restorable. */
  lemma {:induction false} RoundTrip(lib: Library, v: Value)
    requires Inverse(lib) && IsPython(v)
    ensures Back(lib, v) == Some(v) <==> Restorable(lib, v)
    decreases v, 1
  {
    match v
    case List(items) => RoundTripList(lib, items);
    case Tuple(items) => DecodeEncodedSeq(lib, items, v);
    case Set(_) =>
    case Dict(es) =>
      DictValues(lib, es);
      RoundTripDict(lib, es);
    case Scoped(es) =>
      ScopedValues(lib, es);
      RoundTripScoped(lib, es);
    case RegionScoped(es) =>
      RegionScopedValues(lib, es);
      RoundTripRegionScoped(lib, es);
    case Bytes(bytes) => BytesBack(lib, lib.b64(bytes));
    case _ =>
  }

  lemma {:induction false} RoundTripList(lib: Library, items: seq<Value>)
    requires Inverse(lib) && IsPython(List(items))
    ensures Back(lib, List(items)) == Some(List(items)) <==> Restorable(lib, List(items))
    decreases List(items), 0
  {
    forall i | 0 <= i < |items|
      ensures Back(lib, items[i]) == Some(items[i]) <==> Restorable(lib, items[i])
    {
      RoundTrip(lib, items[i]);
    }
    DecodeEncodedSeq(lib, items, List(items));
    BackItemsExact(lib, items);
  }

  lemma {:induction false} DictValues(lib: Library, es: seq<(Value, Value)>)
    requires Inverse(lib) && IsPython(Dict(es))
    ensures AllBack(lib, es) <==> forall i :: 0 <= i < |es| ==> Restorable(lib, es[i].1)
    decreases Dict(es), 0, 1
  {
    assert forall i :: 0 <= i < |es| ==> es[i].1 < es[i] < Dict(es);
    RoundTripValues(lib, es, Dict(es));
  }

  lemma {:induction false} ScopedValues(lib: Library, es: seq<((string, Value), Value)>)
    requires Inverse(lib) && IsPython(Scoped(es))
    ensures AllBack(lib, es) <==> forall i :: 0 <= i < |es| ==> Restorable(lib, es[i].1)
    decreases Scoped(es), 0, 1
  {
    assert forall i :: 0 <= i < |es| ==> es[i].1 < es[i] < Scoped(es);
    RoundTripValues(lib, es, Scoped(es));
  }

  lemma {:induction false} RegionScopedValues(lib: Library, es: seq<((string, string, Value), Value)>)
    requires Inverse(lib) && IsPython(RegionScoped(es))
    ensures AllBack(lib, es) <==> forall i :: 0 <= i < |es| ==> Restorable(lib, es[i].1)
    decreases RegionScoped(es), 0, 1
  {
    assert forall i :: 0 <= i < |es| ==> es[i].1 < es[i] < RegionScoped(es);
    RoundTripValues(lib, es, RegionScoped(es));
  }

  /** The values of a container come back exactly when they are restorable. */
  lemma {:induction false} RoundTripValues<K>(lib: Library, es: Entries<K, Value>, parent: Value)
    requires Inverse(lib) && forall i :: 0 <= i < |es| ==> es[i].1 < parent && IsPython(es[i].1)
    ensures AllBack(lib, es) <==> forall i :: 0 <= i < |es| ==> Restorable(lib, es[i].1)
    decreases parent, 0, 0
  {
    forall i | 0 <= i < |es|
      ensures Back(lib, es[i].1) == Some(es[i].1) <==> Restorable(lib, es[i].1)
    {
      RoundTrip(lib, es[i].1);
    }
  }

  lemma BytesBack(lib: Library, text: string)
    ensures Decode(lib, JObj([(BYTES, JStr(text))])) ==
            var bytes := lib.unb64(text); if bytes.None? then None else Some(Bytes(bytes.value))
  {
    var j, d := (BYTES, JStr(text)), [(Str(BYTES), Str(text))];
    DecodeCons(lib, j, []);
    assert [j] + [] == [j];
    assert d[1..] == [] && d + [] == d;
    assert PutAll([], d) == d;
    assert Decode(lib, JObj([j])) == Hook(lib, d);
    assert Get(d, Str(SCOPED)) == None && Get(d, Str(ACCOUNT_REGION_SCOPED)) == None;
  }

  lemma RoundTripScoped(lib: Library, es: seq<((string, Value), Value)>)
    requires Inverse(lib) && UniqueKeys(es)
    requires forall i :: 0 <= i < |es| ==> Hashable(es[i].0.1)
    ensures Back(lib, Scoped(es)) == Some(Scoped(es)) <==>
            AllBack(lib, es) && forall i :: 0 <= i < |es| ==> NUL !in es[i].0.0
  {
    BackScoped(lib, es);
    if forall i :: 0 <= i < |es| ==> NUL !in es[i].0.0 {
      forall i | 0 <= i < |es|
        ensures AccountParser(lib)(AccountNamer(lib)(es[i].0)) == Some(es[i].0)
      {
        AccountKeyExact(lib, es[i].0);
      }
      KeyedForth(lib, es, AccountNamer(lib), AccountParser(lib));
    } else {
      forall t | AccountParser(lib)(t).Some?
        ensures NUL !in AccountParser(lib)(t).value.0
      {
      }
      BackKeys(lib, es, AccountNamer(lib), AccountParser(lib), (k: (string, Value)) => NUL !in k.0);
    }
  }

  lemma RoundTripRegionScoped(lib: Library, es: seq<((string, string, Value), Value)>)
    requires Inverse(lib) && UniqueKeys(es)
    requires forall i :: 0 <= i < |es| ==> Hashable(es[i].0.2)
    ensures Back(lib, RegionScoped(es)) == Some(RegionScoped(es)) <==>
            AllBack(lib, es) && forall i :: 0 <= i < |es| ==> NUL !in es[i].0.0 && NUL !in es[i].0.1
  {
    BackRegionScoped(lib, es);
    if forall i :: 0 <= i < |es| ==> NUL !in es[i].0.0 && NUL !in es[i].0.1 {
      forall i | 0 <= i < |es|
        ensures RegionParser(lib)(RegionNamer(lib)(es[i].0)) == Some(es[i].0)
      {
        RegionKeyExact(lib, es[i].0);
      }
      KeyedForth(lib, es, RegionNamer(lib), RegionParser(lib));
    } else {
      forall t | RegionParser(lib)(t).Some?
        ensures NUL !in RegionParser(lib)(t).value.0 && NUL !in RegionParser(lib)(t).value.1
      {
      }
      BackKeys(lib, es, RegionNamer(lib), RegionParser(lib),
               (k: (string, string, Value)) => NUL !in k.0 && NUL !in k.1);
    }
  }

  /** A store with a key that no text parses to cannot come back. */
  lemma BackKeys<K>(lib: Library, es: Entries<K, Value>, name: K -> string, parse: string -> Option<K>, ok: K -> bool)
    requires forall t :: parse(t).Some? ==> ok(parse(t).value)
    requires exists i :: 0 <= i < |es| && !ok(es[i].0)
    ensures BackKeyed(lib, es, name, parse) != Some(es)
  {
    var r := BackMembers(lib, PutAll([], Named(es, name)));
    if r.Some? {
      RestoredKeys(r.value, parse, [], ok);
    }
  }

  lemma RoundTripDict(lib: Library, es: seq<(Value, Value)>)
    requires UniqueKeys(es)
    ensures Back(lib, Dict(es)) == Some(Dict(es)) <==>
            AllBack(lib, es) && (forall i :: 0 <= i < |es| ==> es[i].0.Str?) &&
            !HasTag(lib, es, ACCOUNT_REGION_SCOPED) && !HasTag(lib, es, SCOPED) && !Has(es, Str(BYTES))
  {
    BackDict(lib, es);
    if forall i :: 0 <= i < |es| ==> es[i].0.Str? {
      BackStringKeys(lib, es);
    } else {
      BackOtherKeys(lib, es);
    }
  }

  /** How a plain dictionary key that is not a string is written. */
  ghost predicate WrittenAs(lib: Library, k: Value, text: string) {
    match k
    case Str(s) => text == s
    case Null => text == "null"
    case Bool(b) => text == if b then "true" else "false"
    case Int(i) => if i < 0 then text == "-" + Decimal(-i) else text == Decimal(i)
    case Float(m, e) => text == lib.floatText(m, e)
    case _ => false
  }

  /** Entry for entry the same values, and the keys as text. */
  ghost predicate KeysAsText(lib: Library, es: seq<(Value, Value)>, ds: seq<(Value, Value)>) {
    |es| == |ds| &&
    forall i :: 0 <= i < |es| ==> ds[i].0.Str? && WrittenAs(lib, es[i].0, ds[i].0.s) && ds[i].1 == es[i].1
  }

  lemma {:induction false} SameMembers(lib: Library, es: seq<(Value, Value)>, ds: seq<(Value, Value)>)
    requires KeysAsText(lib, es, ds)
    ensures PlainMembers(lib, es).Some? && PlainMembers(lib, es) == PlainMembers(lib, ds)
  {
    if es != [] {
      assert KeysAsText(lib, es[1..], ds[1..]);
      SameMembers(lib, es[1..], ds[1..]);
    }
  }

  /** The parent only bounds the recursion. */
  lemma {:induction false} AnyParent(lib: Library, ms: Members<Value>, a: Value, b: Value)
    requires Inside(ms, a) && Inside(ms, b)
    ensures EncodeMembers(lib, ms, a) == EncodeMembers(lib, ms, b)
  {
    if ms != [] {
      AnyParent(lib, ms[1..], a, b);
    }
  }

  /** A dictionary with null, boolean or number keys is not restored as it was: it comes back with
      these keys as text, and otherwise as it was, if that is restorable. */
  lemma OtherKeysBecomeText(lib: Library, es: seq<(Value, Value)>, ds: seq<(Value, Value)>)
    requires Inverse(lib) && KeysAsText(lib, es, ds) && IsPython(Dict(ds)) && Restorable(lib, Dict(ds))
    ensures Back(lib, Dict(es)) == Some(Dict(ds))
  {
    SameMembers(lib, es, ds);
    var ms := PlainMembers(lib, es).value;
    assert forall i :: 0 <= i < |es| ==> es[i].1 < es[i] < Dict(es);
    assert forall i :: 0 <= i < |ds| ==> ds[i].1 < ds[i] < Dict(ds);
    AnyParent(lib, ms, Dict(es), Dict(ds));
    assert Encode(lib, Dict(es)) == Encode(lib, Dict(ds));
    RoundTrip(lib, Dict(ds));
  }

  /** With string keys a dictionary goes through the hook as it is, or with changed values. */
  lemma BackStringKeys(lib: Library, es: seq<(Value, Value)>)
    requires UniqueKeys(es) && forall i :: 0 <= i < |es| ==> es[i].0.Str?
    ensures PlainMembers(lib, es).Some?
    ensures var r := BackMembers(lib, PlainMembers(lib, es).value);
            (r == Some(es) <==> AllBack(lib, es)) && (r.Some? ==> PutAll([], r.value) == r.value)
  {
    StringKeys(lib, es);
    var ms := PlainMembers(lib, es).value;
    BackMembersAt(lib, ms);
    var r := BackMembers(lib, ms);
    if r.Some? {
      assert Returned(lib, es, r.value);
      ReturnedSame(lib, es, r.value);
      PlainStays(es, r.value);
    } else {
      var i :| 0 <= i < |ms| && Back(lib, ms[i].1).None?;
      assert Back(lib, es[i].1).None?;
    }
  }

  /** Only string keys come back. */
  lemma BackOtherKeys(lib: Library, es: seq<(Value, Value)>)
    requires exists i :: 0 <= i < |es| && !es[i].0.Str?
    ensures Back(lib, Dict(es)) != Some(Dict(es))
  {
    BackDict(lib, es);
    var ms := PlainMembers(lib, es);
    if ms.Some? && BackMembers(lib, ms.value).Some? {
      BackMembersAt(lib, ms.value);
      PutAllKeys([], BackMembers(lib, ms.value).value, (k: Value) => k.Str?);
    }
  }

  lemma PlainStays(es: seq<(Value, Value)>, r: seq<(Value, Value)>)
    requires UniqueKeys(es) && |r| == |es| && forall i :: 0 <= i < |es| ==> r[i].0 == es[i].0
    ensures PutAll([], r) == r
  {
    PutAllNew<Value, Value>([], r);
    assert [] + r == r;
  }

  lemma {:induction false} StringKeys(lib: Library, es: seq<(Value, Value)>)
    requires forall i :: 0 <= i < |es| ==> es[i].0.Str?
    ensures PlainMembers(lib, es).Some?
    ensures forall i :: 0 <= i < |es| ==> PlainMembers(lib, es).value[i] == (es[i].0.s, es[i].1)
  {
    if es != [] {
      StringKeys(lib, es[1..]);
    }
  }

  // ---------------------------------------------------------------------
  // Versioned state files
  // ---------------------------------------------------------------------

  const FORMAT := "__ministack_format__"
  const PAYLOAD := "payload"

  const VERSION_3_SERVICES: set<string> := {
    "appsync", "autoscaling", "athena", "emr", "inspector2", "efs", "s3files", "batch", "ecs",
    "resource_groups", "codebuild", "mq", "servicediscovery", "ses", "ses_v2"
  }

  const STATE_FORMAT_VERSION := 2

  function FormatVersion(service: string): int {
    if service in VERSION_3_SERVICES then 3 else STATE_FORMAT_VERSION
  }

  datatype Loading = Loaded(v: Value) | Refused | Failed

  /** The document save_state writes for a service whose format version is `version`. */
  function SaveState(lib: Library, version: int, data: Value): Option<Json> {
    Encode(lib, Dict([(Str(FORMAT), Int(version)), (Str(PAYLOAD), data)]))
  }

  /** load_state in a program that understands versions up to `supported`. */
  function LoadState(lib: Library, supported: int, file: Json): Loading {
    var d := Decode(lib, file);
    if d.None? then Failed
    else if d.value.Dict? && Has(d.value.entries, Str(FORMAT)) then
      var version := Get(d.value.entries, Str(FORMAT)).value;
      if version.Int? && version.i > supported then Refused
      else Loaded(GetOr(Get(d.value.entries, Str(PAYLOAD)), Null))
    else Loaded(d.value)
  }

  /** Restorable state loads as it was saved, except that a file of a newer version than
      the program understands is refused. */
  lemma LoadSaved(lib: Library, version: int, supported: int, data: Value)
    requires Inverse(lib) && IsPython(data) && Restorable(lib, data)
    ensures SaveState(lib, version, data).Some?
    ensures LoadState(lib, supported, SaveState(lib, version, data).value) ==
            if version > supported then Refused else Loaded(data)
  {
    var es := [(Str(FORMAT), Int(version)), (Str(PAYLOAD), data)];
    assert |FORMAT| != |PAYLOAD|;
    assert |FORMAT| == 20 && |PAYLOAD| == 7 && |SCOPED| == 10 && |ACCOUNT_REGION_SCOPED| == 25 && |BYTES| == 9;
    GetOfTwo(FORMAT, Int(version), PAYLOAD, data, FORMAT);
    GetOfTwo(FORMAT, Int(version), PAYLOAD, data, PAYLOAD);
    GetOfTwo(FORMAT, Int(version), PAYLOAD, data, SCOPED);
    GetOfTwo(FORMAT, Int(version), PAYLOAD, data, ACCOUNT_REGION_SCOPED);
    GetOfTwo(FORMAT, Int(version), PAYLOAD, data, BYTES);
    RoundTrip(lib, data);
    RoundTrip(lib, Int(version));
    RoundTripDict(lib, es);
  }

  /** State saved for a service loads as it was saved in programs that know version 3, and in
      those that know version 2 only unless the service is one of those that moved to version 3;
      older programs refuse it. */
  lemma SavedForService(lib: Library, service: string, data: Value)
    requires Inverse(lib) && IsPython(data) && Restorable(lib, data)
    ensures SaveState(lib, FormatVersion(service), data).Some?
    ensures var file := SaveState(lib, FormatVersion(service), data).value;
            forall supported ::
              LoadState(lib, supported, file) ==
              if supported >= 3 || (supported == 2 && service !in VERSION_3_SERVICES) then Loaded(data) else Refused
  {
    LoadSaved(lib, FormatVersion(service), 3, data);
    forall supported
      ensures LoadState(lib, supported, SaveState(lib, FormatVersion(service), data).value) ==
              if FormatVersion(service) > supported then Refused else Loaded(data)
    {
      LoadSaved(lib, FormatVersion(service), supported, data);
    }
  }

  /** A file from before versions were written loads as the state it holds. */
  lemma LoadLegacy(lib: Library, supported: int, data: Value)
    requires Inverse(lib) && IsPython(data) && Restorable(lib, data)
    requires data.Dict? ==> !Has(data.entries, Str(FORMAT))
    ensures Encode(lib, data).Some? && LoadState(lib, supported, Encode(lib, data).value) == Loaded(data)
  {
    RoundTrip(lib, data);
  }
}

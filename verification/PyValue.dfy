/** The Python values that service stores hold. */
module PyValue {
  import opened Prelude

  /** A float is its mantissa times a power of two, in lowest terms.  Containers list their
      elements in iteration order; a dict lists its entries in insertion order.  `Scoped` and
      `RegionScoped` are the flat maps inside AccountScopedDict and AccountRegionScopedDict. */
  datatype Value =
    | Null
    | Bool(b: bool)
    | Int(i: int)
    | Float(mantissa: int, exponent: int)
    | Str(s: string)
    | Bytes(bytes: seq<nat>)
    | List(items: seq<Value>)
    | Tuple(items: seq<Value>)
    | Set(items: seq<Value>)
    | Dict(entries: seq<(Value, Value)>)
    | Scoped(perAccount: seq<((string, Value), Value)>)
    | RegionScoped(perRegion: seq<((string, string, Value), Value)>)
}

/**
 * The parsed database as the YAML loader hands it to the sanity checker:
 * dynamically typed values, and the few Ruby behaviours the checks rely on
 * (`.class` tests, truthiness, `Hash#[]` answering nil for a missing key).
 */
module Values {

  /** One parsed value. `Float` carries no number: the checks only ask for
      its class. A `Hash` lists its keys in insertion order in `keys` (the
      order `each_key` visits them) beside the lookup table `fields`. */
  datatype Value =
    | Str(s: string)
    | Int(i: int)
    | Float
    | Bool(b: bool)
    | List(items: seq<Value>)
    | Hash(keys: seq<string>, fields: map<string, Value>)
    | Nil

  /** What `.class` answers in the 64-bit Ruby 1.9 the checker targets:
      an integer is a Fixnum only within 62 bits and a Bignum beyond. */
  datatype RubyClass =
    | StringClass | FixnumClass | BignumClass | FloatClass
    | TrueClass | FalseClass | ArrayClass | HashClass | NilClass

  const FixnumMin: int := -0x4000_0000_0000_0000
  const FixnumMax: int := 0x3FFF_FFFF_FFFF_FFFF

  function ClassOf(v: Value): RubyClass {
    match v
    case Str(_) => StringClass
    case Int(i) => if FixnumMin <= i <= FixnumMax then FixnumClass else BignumClass
    case Float => FloatClass
    case Bool(b) => if b then TrueClass else FalseClass
    case List(_) => ArrayClass
    case Hash(_, _) => HashClass
    case Nil => NilClass
  }

  predicate IsFixnum(v: Value) {
    ClassOf(v) == FixnumClass
  }

  /** Ruby truthiness: everything except nil and false. */
  predicate Truthy(v: Value) {
    !v.Nil? && v != Bool(false)
  }

  /** `hash.has_key?(key)` */
  predicate HasKey(h: Value, key: string)
    requires h.Hash?
  {
    key in h.fields
  }

  /** `hash[key]`: nil when the key is absent. */
  function Get(h: Value, key: string): Value
    requires h.Hash?
  {
    if key in h.fields then h.fields[key] else Nil
  }

  /** `hash.has_key?(v)` for an arbitrary value: only strings are keys. */
  predicate IsKeyOf(v: Value, h: Value)
    requires h.Hash?
  {
    v.Str? && v.s in h.fields
  }

  /** `hash[v]` for an arbitrary value. */
  function Lookup(h: Value, v: Value): Value
    requires h.Hash?
  {
    if IsKeyOf(v, h) then h.fields[v.s] else Nil
  }

  /** A Ruby hash's key order and its lookup table agree: every key once. */
  ghost predicate WellKeyed(h: Value)
    requires h.Hash?
  {
    && (forall i, j :: 0 <= i < j < |h.keys| ==> h.keys[i] != h.keys[j])
    && (forall k :: k in h.fields <==> k in h.keys)
  }

  /** Position of the first of `keys` that `h` lacks, or |keys| when it has
      them all: the `mandatory_keys.each` loops report exactly that key. */
  function FirstMissing(keys: seq<string>, h: Value): (i: nat)
    requires h.Hash?
    ensures i <= |keys|
    ensures forall j :: 0 <= j < i ==> HasKey(h, keys[j])
    ensures i < |keys| ==> !HasKey(h, keys[i])
    ensures i == |keys| <==> forall k :: k in keys ==> HasKey(h, k)
  {
    if keys == [] then 0
    else if !HasKey(h, keys[0]) then 0
    else 1 + FirstMissing(keys[1..], h)
  }

  /** The distinct elements of a sequence. */
  function Elems<T>(s: seq<T>): set<T> {
    set x | x in s
  }

  predicate NoDuplicates<T(==)>(s: seq<T>) {
    forall i, j :: 0 <= i < j < |s| ==> s[i] != s[j]
  }
}

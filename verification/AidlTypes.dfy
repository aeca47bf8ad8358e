/** The types an interface definition lowers to, the values they hold, and the
    declarations they refer to by name. */
module AidlTypes {
  import opened Bytes
  import opened Objects
  import opened Wire
  import D = DynamicValues
  import Utf16

  datatype Prim = Bool | Byte | Char | Int32 | Int64 | Float32 | Float64

  /** `Raw` is a map without key and value types. A slice, map or binder can always be nil. */
  datatype Type =
    | Basic(prim: Prim)
    | Text(nullable: bool)
    | Enum(name: string)
    | Parcelable(name: string, nullable: bool)
    | Union(name: string, nullable: bool)
    | Slice(elem: Type)
    | Array(len: nat, elem: Type)
    | Map(key: Type, elem: Type)
    | Raw
    | Strong

  /** `init` is what a field holds before it is read: its declared default, or zero. */
  datatype Field = Field(typ: Type, init: Val)

  /** `zero` is Go's zero value of the declared type. */
  datatype Decl =
    | Struct(fields: seq<Field>, zero: Val)
    | Opaque
    | Choice(variants: seq<Type>, zero: Val)
    | Backed(prim: Prim)

  type Env = map<string, Decl>

  datatype Key = KNum(n: int) | KText(s: Utf16.text)

  /** A Go value. Floats are their bit patterns. A map is listed in the order in which it
      is walked; `Tree` is a raw map to be written, `Dyn` one that was read. */
  datatype Val =
    | Nil
    | Num(n: int)
    | Str(s: Utf16.text)
    | Record(fields: seq<Val>)
    | Bytes(raw: seq<byte>)
    | Variant(tag: nat, value: Val)
    | Items(items: seq<Val>)
    | Dict(keys: seq<Key>, vals: seq<Val>)
    | Tree(entries: seq<D.Entry>)
    | Dyn(m: map<D.Key, D.Value>)
    | Bind(ref: BinderRef)

  predicate InPrim(p: Prim, n: int) {
    match p
    case Bool => 0 <= n <= 1
    case Byte => -0x80 <= n < 0x80
    case Char => 0 <= n < 0x1_0000
    case Int32 => -0x8000_0000 <= n < 0x8000_0000
    case Int64 => -0x8000_0000_0000_0000 <= n < 0x8000_0000_0000_0000
    case Float32 => 0 <= n < 0x1_0000_0000
    case Float64 => 0 <= n < 0x1_0000_0000_0000_0000
  }

  /** Types whose values Go can compare and that are not floats. */
  predicate KeyType(env: Env, t: Type) {
    match t
    case Basic(p) => p != Float32 && p != Float64
    case Text(nullable) => !nullable
    case Enum(e) => e in env && env[e].Backed? && env[e].prim != Float32 && env[e].prim != Float64
    case _ => false
  }

  /** Types that are written with a presence word where they stand as a field, an element
      or an argument. */
  predicate TypedObject(t: Type) { t.Parcelable? || t.Union? }

  function Inits(fs: seq<Field>): (r: seq<Val>)
    ensures |r| == |fs| && forall i :: 0 <= i < |fs| ==> r[i] == fs[i].init
  {
    seq(|fs|, i requires 0 <= i < |fs| => fs[i].init)
  }

  /** The Go map a list of entries builds: later entries win. */
  function AsMap(keys: seq<Key>, vals: seq<Val>): map<Key, Val>
    requires |keys| == |vals|
  {
    if keys == [] then map[] else map[keys[0] := vals[0]] + AsMap(keys[1..], vals[1..])
  }

  lemma {:induction false} AsMapKeys(keys: seq<Key>, vals: seq<Val>, k: Key)
    requires |keys| == |vals|
    ensures k in AsMap(keys, vals) <==> k in keys
  {
    if keys != [] {
      AsMapKeys(keys[1..], vals[1..], k);
      assert keys == [keys[0]] + keys[1..];
    }
  }

  /** With distinct keys the map is the set of its entries, in whatever order they come. */
  lemma {:induction false} AsMapEntry(keys: seq<Key>, vals: seq<Val>, i: nat)
    requires |keys| == |vals| && i < |keys|
    requires forall i, j :: 0 <= i < j < |keys| ==> keys[i] != keys[j]
    ensures keys[i] in AsMap(keys, vals) && AsMap(keys, vals)[keys[i]] == vals[i]
  {
    var rest := keys[1..];
    if i > 0 {
      assert rest[i - 1] == keys[i];
      AsMapEntry(rest, vals[1..], i - 1);
    } else {
      AsMapKeys(rest, vals[1..], keys[0]);
      assert forall j :: 0 <= j < |rest| ==> rest[j] == keys[j + 1];
    }
  }
}

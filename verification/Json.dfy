/**
 JSON trees as serde_json builds them. The gateway switches on the `preserve_order` feature
 (apps/gateway/Cargo.toml), so an object is an ordered list of entries.
 */
module Json {

  /** An integer, or a binary floating-point number given by its significand and exponent; the negative zero
      is a floating-point number of its own, since it is written differently. */
  datatype AnyNumber = Int(i: int) | Float(significand: int, exponent: int) | NegativeZero {
    /** Only one way to write each floating-point value: an odd significand, or zero. */
    predicate Normal() { Float? ==> significand % 2 == 1 || (significand == 0 && exponent == 0) }

    /** The number as `as_f64` sees it; the rounding of large integers is not modelled. */
    function AsReal(): real {
      match this
      case Int(i) => i as real
      case Float(m, e) => Scaled(m, e)
      case NegativeZero => 0.0
    }
  }

  type Number = n: AnyNumber | n.Normal() witness Int(0)

  /** `m` times two to the power of `e`. */
  function Scaled(m: int, e: int): real
    decreases if e < 0 then -e else e
  {
    if e == 0 then m as real else if e > 0 then Scaled(2 * m, e - 1) else Scaled(m, e + 1) / 2.0
  }

  datatype Json =
    | Null
    | Bool(b: bool)
    | Num(n: Number)
    | Str(s: string)
    | Arr(items: seq<Json>)
    | Obj(entries: seq<Entry>)

  datatype Entry = Entry(key: string, value: Json)

  /** What a tree means once objects are read as maps and arrays as ordered lists. */
  datatype Value =
    | VNull
    | VBool(b: bool)
    | VNum(n: Number)
    | VStr(s: string)
    | VArr(items: seq<Value>)
    | VObj(fields: map<string, Value>)

  function Meaning(j: Json): Value {
    match j
    case Null => VNull
    case Bool(b) => VBool(b)
    case Num(n) => VNum(n)
    case Str(s) => VStr(s)
    case Arr(items) => VArr(MeaningOfItems(items))
    case Obj(entries) => VObj(MeaningOfEntries(entries))
  }

  function MeaningOfItems(items: seq<Json>): (vs: seq<Value>)
    ensures |vs| == |items|
  {
    if items == [] then [] else [Meaning(items[0])] + MeaningOfItems(items[1..])
  }

  /** A repeated key keeps its last value, as insertion into a map does. */
  function MeaningOfEntries(entries: seq<Entry>): map<string, Value> {
    if entries == [] then map[]
    else map[entries[0].key := Meaning(entries[0].value)] + MeaningOfEntries(entries[1..])
  }

  /** Nodes and entries of a tree; a measure for recursion over rearranged entry lists. */
  function Size(j: Json): nat {
    match j
    case Arr(items) => 1 + SizeOfItems(items)
    case Obj(entries) => 1 + SizeOfEntries(entries)
    case _ => 1
  }

  function SizeOfItems(items: seq<Json>): nat {
    if items == [] then 0 else 1 + Size(items[0]) + SizeOfItems(items[1..])
  }

  function SizeOfEntries(entries: seq<Entry>): nat {
    if entries == [] then 0 else 1 + Size(entries[0].value) + SizeOfEntries(entries[1..])
  }
}

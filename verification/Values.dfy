/** The value graph the reflection traversals read.  A `Value` is what
    a reflected value holds directly; what it holds through a reference sits in a
    `Heap` under the reference's identity, so values share and close cycles. */
module Values {
  datatype Option<+T> = None | Some(value: T)

  // A pointer, a slice and a map never share an identity: their types differ.
  datatype RefKind = PointerRef | SliceRef(bytes: bool) | MapRef

  /** What the heap is keyed by.  `n` is a slice's length and 0 otherwise: slices of one
      address that differ in length are held apart. */
  datatype RefKey = RefKey(kind: RefKind, typ: string, ptr: nat, n: nat)

  datatype Value =
    | Invalid                                            // the zero reflected value
    | Leaf(typ: string, text: string)                    // holds nothing to descend into
    | Iface(dynamic: Option<Value>)
    | Struct(typ: string, fields: seq<Value>)
    | Array(typ: string, bytes: bool, items: seq<Value>)
    | Pointer(typ: string, ptr: nat)                     // address 0 is nil
    | Slice(typ: string, bytes: bool, ptr: nat, len: nat)
    | Map(typ: string, ptr: nat)
  {
    predicate IsReference() {
      Pointer? || Slice? || Map?
    }

    function Key(): RefKey
      requires IsReference()
    {
      match this
      case Pointer(t, p) => RefKey(PointerRef, t, p, 0)
      case Slice(t, b, p, n) => RefKey(SliceRef(b), t, p, n)
      case Map(t, p) => RefKey(MapRef, t, p, 0)
    }
  }

  // A map's entry beside its rendered key, which spells its path.
  datatype Entry = Entry(name: string, key: Value, value: Value)

  datatype Object =
    | Cell(value: Value)
    | Elements(items: seq<Value>)
    | Table(entries: seq<Entry>)       // in rendered-key order

  type Heap = map<RefKey, Object>

  /** What a pointer leads to, nothing for one the heap does not hold. */
  function Target(h: Heap, key: RefKey): Value {
    if key in h && h[key].Cell? then h[key].value else Invalid
  }

  function Items(h: Heap, key: RefKey): seq<Value> {
    if key in h && h[key].Elements? then h[key].items else []
  }

  function Entries(h: Heap, key: RefKey): seq<Entry> {
    if key in h && h[key].Table? then h[key].entries else []
  }

  // ----- where a value is -----

  datatype Step =
    | Field(owner: string, index: nat)
    | Element(index: nat)
    | MapKey(name: string)
    | MapValue(name: string)

  /** A path: the walk's root, then each step from it. */
  datatype Path = Path(root: string, steps: seq<Step>)
}

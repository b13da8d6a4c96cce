/** The generated struct codec, driven by a schema instead of one copy per struct.

    A struct type lists its fields in id order, which is the order in which the length is added
    up and in which required fields are checked, and separately the order in which the fields
    are written: fixed-size fields come first there. */
module ThriftCodec {
  import opened ThriftPrimitives

  datatype Field = Field(id: int, typ: Type, required: bool)

  datatype Type =
    | Bool
    | Int32
    | Int64
    | String
    | Struct(fields: seq<Field>, order: seq<nat>)
    | List(elem: Type)

  /** One field of a Go struct. An optional field holds a pointer, and `Unset` is nil there. */
  datatype Slot = Unset | Set(value: Value)

  /** `VNil` is a nil pointer to a struct, held by a required field or by a list. */
  datatype Value =
    | VBool(b: bool)
    | VInt(n: int)
    | VString(s: seq<byte>)
    | VNil
    | VStruct(slots: seq<Slot>)
    | VList(items: seq<Value>)

  function Code(t: Type): byte {
    match t
    case Bool => BOOL
    case Int32 => I32
    case Int64 => I64
    case String => STRING
    case Struct(_, _) => STRUCT
    case List(_) => LIST
  }

  /** `order` visits every index below `n` exactly once. */
  ghost predicate IsOrder(order: seq<nat>, n: nat) {
    && |order| == n
    && (forall k :: 0 <= k < n ==> order[k] < n)
    && (forall j, k :: 0 <= j < k < n ==> order[j] != order[k])
    && (forall i :: 0 <= i < n ==> i in order)
  }

  ghost predicate DistinctIds(fields: seq<Field>) {
    forall i, j :: 0 <= i < j < |fields| ==> fields[i].id != fields[j].id
  }

  ghost predicate ValidType(t: Type) {
    match t
    case Struct(fields, order) =>
      && DistinctIds(fields)
      && IsOrder(order, |fields|)
      && (forall i :: 0 <= i < |fields| ==> IdFits(fields[i].id) && ValidType(fields[i].typ))
    case List(elem) => ValidType(elem)
    case _ => true
  }

  /** The values a Go variable of type `t` can hold. */
  ghost predicate HasType(t: Type, v: Value)
    decreases t, 1
  {
    match t
    case Bool => v.VBool?
    case Int32 => v.VInt? && FitsSigned(v.n, 4)
    case Int64 => v.VInt? && FitsSigned(v.n, 8)
    case String => v.VString?
    case Struct(fields, order) =>
      || v.VNil?
      || (&& v.VStruct?
          && |v.slots| == |fields|
          && IsOrder(order, |fields|)
          && (forall i :: 0 <= i < |fields| ==>
                match v.slots[i]
                case Unset => !fields[i].required
                case Set(w) => HasType(fields[i].typ, w) && (w.VNil? ==> fields[i].required)))
    case List(elem) => v.VList? && ItemsHaveType(elem, v.items)
  }

  ghost predicate ItemsHaveType(elem: Type, items: seq<Value>)
    decreases elem, 2
  {
    forall i :: 0 <= i < |items| ==> HasType(elem, items[i])
  }

  /** No nil struct anywhere inside, and every string and list short enough for its length to
      be a non-negative 32-bit integer. */
  ghost predicate Transportable(v: Value) {
    match v
    case VBool(_) => true
    case VInt(_) => true
    case VString(s) => SizeFits(|s|)
    case VNil => false
    case VStruct(slots) => forall i :: 0 <= i < |slots| && slots[i].Set? ==> Transportable(slots[i].value)
    case VList(items) => SizeFits(|items|) && (forall i :: 0 <= i < |items| ==> Transportable(items[i]))
  }

  // ---------------------------------------------------------------------------------------
  // Writing
  // ---------------------------------------------------------------------------------------

  ghost function Encode(t: Type, v: Value): (s: seq<byte>)
    requires HasType(t, v)
    decreases t, 1
  {
    match t
    case Bool => WriteBool(v.b)
    case Int32 => WriteInt(v.n, 4)
    case Int64 => WriteInt(v.n, 8)
    case String => WriteString(v.s)
    case Struct(fields, order) =>
      if v.VNil? then [STOP] else EncodeFields(t, v, 0) + [STOP]
    case List(elem) => WriteListBegin(Code(elem), |v.items|) + EncodeItems(elem, v.items)
  }

  /** The fields from position `k` of the writing order on. */
  ghost function EncodeFields(t: Type, v: Value, k: nat): seq<byte>
    requires t.Struct? && HasType(t, v) && v.VStruct? && k <= |t.order|
    decreases t, 0, |t.order| - k + 1
  {
    if k == |t.order| then []
    else EncodeField(t, v, t.order[k]) + EncodeFields(t, v, k + 1)
  }

  /** One field: nothing when it is unset. */
  ghost function EncodeField(t: Type, v: Value, i: nat): seq<byte>
    requires t.Struct? && HasType(t, v) && v.VStruct? && i < |t.fields|
    decreases t, 0, 0
  {
    var f := t.fields[i];
    match v.slots[i]
    case Unset => []
    case Set(w) => WriteFieldBegin(Code(f.typ), f.id) + Encode(f.typ, w)
  }

  ghost function EncodeItems(elem: Type, items: seq<Value>): seq<byte>
    requires ItemsHaveType(elem, items)
    decreases elem, 2, |items|
  {
    if items == [] then []
    else Encode(elem, items[0]) + EncodeItems(elem, items[1..])
  }

  lemma {:induction false} EncodeItemsCons(elem: Type, v: Value, vs: seq<Value>)
    requires HasType(elem, v) && ItemsHaveType(elem, vs) && ItemsHaveType(elem, [v] + vs)
    ensures EncodeItems(elem, [v] + vs) == Encode(elem, v) + EncodeItems(elem, vs)
  {
    assert ([v] + vs)[1..] == vs;
  }

  // ---------------------------------------------------------------------------------------
  // Reading
  // ---------------------------------------------------------------------------------------

  function EmptySlots(fields: seq<Field>): (slots: seq<Slot>)
    ensures |slots| == |fields|
  {
    seq(|fields|, _ => Unset)
  }

  /** The position of field `id`, or the number of fields when there is none. */
  function Find(fields: seq<Field>, id: int): (i: nat)
    ensures i <= |fields|
    ensures i < |fields| ==> fields[i].id == id
    ensures forall j :: 0 <= j < i ==> fields[j].id != id
  {
    if fields == [] then 0
    else if fields[0].id == id then 0
    else 1 + Find(fields[1..], id)
  }

  /** The first required field, in id order, that has not been read. */
  function FirstMissing(fields: seq<Field>, slots: seq<Slot>): (i: nat)
    requires |slots| == |fields|
    ensures i <= |fields|
    ensures i < |fields| ==> fields[i].required && slots[i].Unset?
    ensures forall j :: 0 <= j < i ==> !fields[j].required || slots[j].Set?
  {
    if fields == [] then 0
    else if fields[0].required && slots[0].Unset? then 0
    else 1 + FirstMissing(fields[1..], slots[1..])
  }

  /** The answer of the reader at the STOP byte. */
  function Finish(fields: seq<Field>, slots: seq<Slot>, used: nat): Outcome<Value>
    requires |slots| == |fields|
  {
    var m := FirstMissing(fields, slots);
    if m == |fields| then Ok(VStruct(slots), used) else Err(MissingRequired(fields[m].id))
  }

  /** Whether the reader takes a field with this header, and does not skip it. */
  predicate Wanted(fields: seq<Field>, code: byte, id: int) {
    var i := Find(fields, id);
    i < |fields| && Code(fields[i].typ) == code
  }

  function Decode(t: Type, buf: seq<byte>): (r: Outcome<Value>)
    ensures r.Ok? ==> r.used <= |buf|
    decreases t, 1
  {
    match t
    case Bool =>
      (match ReadBool(buf)
       case Err(e) => Err(e)
       case Ok(b, n) => Ok(VBool(b), n))
    case Int32 =>
      (match ReadInt(buf, 4)
       case Err(e) => Err(e)
       case Ok(i, n) => Ok(VInt(i), n))
    case Int64 =>
      (match ReadInt(buf, 8)
       case Err(e) => Err(e)
       case Ok(i, n) => Ok(VInt(i), n))
    case String =>
      (match ReadString(buf)
       case Err(e) => Err(e)
       case Ok(s, n) => Ok(VString(s), n))
    case Struct(fields, _) => DecodeFields(t, buf, EmptySlots(fields))
    case List(elem) =>
      (match ReadListBegin(buf)
       case Err(e) => Err(e)
       case Ok(h, _) =>
         match DecodeItems(elem, h.size, buf[5..])
         case Err(e) => Err(e)
         case Ok(items, n) => Ok(VList(items), 5 + n))
  }

  function DecodeFields(t: Type, buf: seq<byte>, slots: seq<Slot>): (r: Outcome<Value>)
    requires t.Struct? && |slots| == |t.fields|
    ensures r.Ok? ==> r.used <= |buf|
    decreases t, 0, |buf|
  {
    match ReadFieldBegin(buf)
    case Err(e) => Err(e)
    case Ok(End, _) => Finish(t.fields, slots, 1)
    case Ok(Begin(code, id), _) =>
      if Wanted(t.fields, code, id) then
        var i := Find(t.fields, id);
        match Decode(t.fields[i].typ, buf[3..])
        case Err(e) => Err(e)
        case Ok(v, n) => Advance(DecodeFields(t, buf[3 + n..], slots[i := Set(v)]), 3 + n)
      else
        match Skip(code, buf[3..])
        case Err(e) => Err(e)
        case Ok(_, n) => Advance(DecodeFields(t, buf[3 + n..], slots), 3 + n)
  }

  /** The element type in the list header is not compared with the schema. */
  function DecodeItems(elem: Type, count: nat, buf: seq<byte>): (r: Outcome<seq<Value>>)
    ensures r.Ok? ==> r.used <= |buf| && |r.value| == count
    decreases elem, 2, count
  {
    if count == 0 then Ok([], 0)
    else
      match Decode(elem, buf)
      case Err(e) => Err(e)
      case Ok(v, n) =>
        match DecodeItems(elem, count - 1, buf[n..])
        case Err(e) => Err(e)
        case Ok(vs, m) => Ok([v] + vs, n + m)
  }
}

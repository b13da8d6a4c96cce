/** Forward compatibility at every depth: messages of writers whose schema has grown, inside nested
    structs and list elements as well as at the top. */
module ThriftEvolution {
  import opened ThriftPrimitives
  import opened ThriftCodec
  import opened ThriftMessages
  import opened ThriftRoundTrip

  /** What another writer sends for a value: a scalar as it is, the elements of a list, or the
      fields of a struct in any order. */
  datatype Document =
    | Plain(value: Value)
    | Elements(items: seq<Document>)
    | Fields(parts: seq<Part>)

  /** A field of this schema, by its position, or a field that this schema does not have. */
  datatype Part =
    | Known(slot: nat, document: Document)
    | Extra(field: WireField)

  /** A reader that does not know the field can skip it. */
  ghost predicate Skippable(fields: seq<Field>, f: WireField) {
    Accepted(fields, f) && !Wanted(fields, f.code, f.id)
  }

  /** The document says the value `v` to a reader of type `t`: every field that is set occurs, at
      least once, and says its value; other fields may stand anywhere. */
  ghost predicate Says(t: Type, d: Document, v: Value)
    decreases d, 1, 0
  {
    match t
    case Struct(fields, _) =>
      && d.Fields? && v.VStruct? && |v.slots| == |fields|
      && (forall k :: 0 <= k < |d.parts| ==> PartSays(fields, d.parts[k], v.slots))
      && (forall i :: 0 <= i < |fields| ==>
            if v.slots[i].Set? then exists k :: 0 <= k < |d.parts| && IsFor(d.parts[k], i)
            else !fields[i].required)
    case List(elem) =>
      d.Elements? && v.VList? && SizeFits(|d.items|) && ItemsSay(elem, d, 0, v.items)
    case _ => d == Plain(v) && HasType(t, v) && Transportable(v)
  }

  /** The elements from index `k` on say the values `vs`, one for each. */
  ghost predicate ItemsSay(elem: Type, d: Document, k: nat, vs: seq<Value>)
    requires d.Elements? && k <= |d.items|
    decreases d, 0, |d.items| - k
  {
    if k == |d.items| then vs == []
    else vs != [] && Says(elem, d.items[k], vs[0]) && ItemsSay(elem, d, k + 1, vs[1..])
  }

  ghost predicate PartSays(fields: seq<Field>, p: Part, slots: seq<Slot>)
    requires |slots| == |fields|
    decreases p, 0, 0
  {
    match p
    case Known(i, d) => i < |fields| && slots[i].Set? && Says(fields[i].typ, d, slots[i].value)
    case Extra(f) => Skippable(fields, f)
  }

  predicate IsFor(p: Part, i: nat) {
    p.Known? && p.slot == i
  }

  // ---------------------------------------------------------------------------------------
  // The bytes of a document
  // ---------------------------------------------------------------------------------------

  ghost function Bytes(t: Type, d: Document): seq<byte>
    decreases d, 1, 0
  {
    match d
    case Plain(v) => if HasType(t, v) then Encode(t, v) else []
    case Elements(items) =>
      if t.List? then WriteListBegin(Code(t.elem), |items|) + ItemBytes(t.elem, d, 0) else []
    case Fields(parts) => if t.Struct? then Message(Wires(t.fields, d)) else []
  }

  ghost function ItemBytes(elem: Type, d: Document, k: nat): seq<byte>
    requires d.Elements? && k <= |d.items|
    decreases d, 0, |d.items| - k
  {
    if k == |d.items| then [] else Bytes(elem, d.items[k]) + ItemBytes(elem, d, k + 1)
  }

  ghost function Wires(fields: seq<Field>, d: Document): (ws: seq<WireField>)
    requires d.Fields?
    ensures |ws| == |d.parts|
    decreases d, 0, 0
  {
    seq(|d.parts|, k requires 0 <= k < |d.parts| => Wire(fields, d.parts[k]))
  }

  ghost function Wire(fields: seq<Field>, p: Part): WireField
    decreases p, 0, 0
  {
    match p
    case Known(i, d) =>
      if i < |fields| then WireField(Code(fields[i].typ), fields[i].id, Bytes(fields[i].typ, d))
      else WireField(STOP, 0, [])
    case Extra(f) => f
  }

  // ---------------------------------------------------------------------------------------
  // Reading a document gives what it says
  // ---------------------------------------------------------------------------------------

  /** Whatever else the writer put in, at whatever depth and in whatever order, a reader gets the
      value that the fields it knows say, and uses exactly the message. */
  lemma {:induction false} NewerMessageReadsTheSame(t: Type, d: Document, v: Value, rest: seq<byte>)
    requires ValidType(t) && Says(t, d, v)
    ensures Decode(t, Bytes(t, d) + rest) == Ok(v, |Bytes(t, d)|)
    decreases d, 1, 0
  {
    match t
    case Struct(fields, _) =>
      forall k | 0 <= k < |d.parts| ensures PartReads(fields, d.parts[k], v.slots) {
        assert PartSays(fields, d.parts[k], v.slots);
        PartIsRead(t, d.parts[k], v.slots);
      }
      FieldsAreRead(t, d, v, rest);
    case List(elem) =>
      var size, body := WriteListBegin(Code(elem), |d.items|), ItemBytes(elem, d, 0);
      Regroup(size, body, rest, []);
      ListBeginRoundTrip(Code(elem), |d.items|, body + rest);
      assert (size + (body + rest))[5..] == body + rest;
      ElementsAreRead(elem, d, 0, v.items, rest);
    case _ => RoundTrip(t, v, rest);
  }

  /** The wire field of a part is read into its slot with its value, or skipped. */
  ghost predicate PartReads(fields: seq<Field>, p: Part, slots: seq<Slot>)
    requires |slots| == |fields|
  {
    var f := Wire(fields, p);
    && Accepted(fields, f)
    && match p
       case Known(i, _) =>
         && i < |fields| && Fills(fields, f, i)
         && slots[i] == Set(Decode(fields[i].typ, f.payload).value)
       case Extra(_) => !Wanted(fields, f.code, f.id)
  }

  lemma {:induction false} PartIsRead(t: Type, p: Part, slots: seq<Slot>)
    requires t.Struct? && ValidType(t) && |slots| == |t.fields| && PartSays(t.fields, p, slots)
    ensures PartReads(t.fields, p, slots)
    decreases p, 0, 0
  {
    match p
    case Known(i, d) =>
      var typ := t.fields[i].typ;
      NewerMessageReadsTheSame(typ, d, slots[i].value, []);
      assert Bytes(typ, d) + [] == Bytes(typ, d);
      assert Find(t.fields, t.fields[i].id) == i;
    case Extra(_) =>
  }

  lemma {:induction false} FieldsAreRead(t: Type, d: Document, v: Value, rest: seq<byte>)
    requires t.Struct? && d.Fields? && v.VStruct? && |v.slots| == |t.fields| && Says(t, d, v)
    requires forall k :: 0 <= k < |d.parts| ==> PartReads(t.fields, d.parts[k], v.slots)
    ensures Decode(t, Message(Wires(t.fields, d)) + rest) == Ok(v, |Message(Wires(t.fields, d))|)
  {
    var ws := Wires(t.fields, d);
    assert AllAccepted(t.fields, ws) by {
      forall k | 0 <= k < |ws| ensures Accepted(t.fields, ws[k]) { assert PartReads(t.fields, d.parts[k], v.slots); }
    }
    MessageIsReadExactly(t, ws, rest);
    forall i | 0 <= i < |t.fields|
      ensures LastFill(t.fields, ws, i) >= 0 <==> v.slots[i].Set?
      ensures SlotAfter(t.fields, EmptySlots(t.fields), ws, i) == v.slots[i]
    {
      SlotIsRead(t, d, v, i);
    }
    var r := Decode(t, Message(ws) + rest);
    assert r.Ok?;
    assert r.value.slots == v.slots;
  }

  lemma {:induction false} SlotIsRead(t: Type, d: Document, v: Value, i: nat)
    requires t.Struct? && d.Fields? && v.VStruct? && |v.slots| == |t.fields| && Says(t, d, v) && i < |t.fields|
    requires forall k :: 0 <= k < |d.parts| ==> PartReads(t.fields, d.parts[k], v.slots)
    ensures var ws := Wires(t.fields, d);
      && (LastFill(t.fields, ws, i) >= 0 <==> v.slots[i].Set?)
      && SlotAfter(t.fields, EmptySlots(t.fields), ws, i) == v.slots[i]
  {
    var ws := Wires(t.fields, d);
    if v.slots[i].Set? {
      var j :| 0 <= j < |d.parts| && IsFor(d.parts[j], i);
      assert PartReads(t.fields, d.parts[j], v.slots);
      assert Fills(t.fields, ws[j], i);
    }
    var k := LastFill(t.fields, ws, i);
    if k >= 0 {
      assert PartReads(t.fields, d.parts[k], v.slots);
    }
  }

  lemma {:induction false} ElementsAreRead(elem: Type, d: Document, k: nat, vs: seq<Value>, rest: seq<byte>)
    requires ValidType(elem) && d.Elements? && k <= |d.items| && ItemsSay(elem, d, k, vs)
    ensures |vs| == |d.items| - k
    ensures DecodeItems(elem, |vs|, ItemBytes(elem, d, k) + rest) == Ok(vs, |ItemBytes(elem, d, k)|)
    decreases d, 0, |d.items| - k
  {
    if k < |d.items| {
      var v, later := vs[0], vs[1..];
      var head, tail := Bytes(elem, d.items[k]), ItemBytes(elem, d, k + 1);
      ElementsAreRead(elem, d, k + 1, later, rest);
      NewerMessageReadsTheSame(elem, d.items[k], v, tail + rest);
      OneMoreItem(elem, head, tail, rest, v, later);
      assert vs == [v] + later;
    }
  }

  // ---------------------------------------------------------------------------------------
  // What this writer sends is one such document
  // ---------------------------------------------------------------------------------------

  ghost function DocumentOf(t: Type, v: Value): Document
    requires HasType(t, v) && Transportable(v)
    decreases t, 1, 0
  {
    match t
    case Struct(_, _) => Fields(PartsOf(t, v, 0))
    case List(elem) => Elements(DocumentsOf(elem, v.items))
    case _ => Plain(v)
  }

  ghost function PartsOf(t: Type, v: Value, k: nat): seq<Part>
    requires t.Struct? && HasType(t, v) && v.VStruct? && Transportable(v) && k <= |t.order|
    decreases t, 0, |t.order| - k
  {
    if k == |t.order| then []
    else
      var i := t.order[k];
      if v.slots[i].Unset? then PartsOf(t, v, k + 1)
      else [Known(i, DocumentOf(t.fields[i].typ, v.slots[i].value))] + PartsOf(t, v, k + 1)
  }

  ghost function DocumentsOf(elem: Type, items: seq<Value>): (ds: seq<Document>)
    requires ItemsHaveType(elem, items) && forall i :: 0 <= i < |items| ==> Transportable(items[i])
    ensures |ds| == |items|
    ensures forall i :: 0 <= i < |items| ==> ds[i] == DocumentOf(elem, items[i])
    decreases elem, 2, 0
  {
    seq(|items|, i requires 0 <= i < |items| => DocumentOf(elem, items[i]))
  }

  /** Every encoding is the message of a document that says the encoded value. */
  lemma {:induction false} EncodingIsDocument(t: Type, v: Value)
    requires ValidType(t) && HasType(t, v) && Transportable(v)
    ensures Says(t, DocumentOf(t, v), v)
    ensures Bytes(t, DocumentOf(t, v)) == Encode(t, v)
    decreases t, 1, 0
  {
    match t
    case Struct(fields, order) =>
      var d := DocumentOf(t, v);
      forall i | 0 <= i < |fields| && v.slots[i].Set? ensures FieldIsDocument(t, v, i) {
        EncodingIsDocument(fields[i].typ, v.slots[i].value);
      }
      PartsAreWritten(t, v, 0);
      EncodingIsMessage(t, v, 0);
      assert d.parts == PartsOf(t, v, 0);
      assert Wires(fields, d) == WireFields(t, v, 0);
      AllPartsSay(t, v);
    case List(elem) =>
      forall i | 0 <= i < |v.items| ensures ItemIsDocument(elem, v.items[i]) {
        EncodingIsDocument(elem, v.items[i]);
      }
      ItemsAreWritten(elem, v.items, 0);
      assert v.items[0..] == v.items;
    case _ =>
  }

  ghost predicate ItemIsDocument(t: Type, v: Value) {
    && HasType(t, v) && Transportable(v)
    && Says(t, DocumentOf(t, v), v) && Bytes(t, DocumentOf(t, v)) == Encode(t, v)
  }

  ghost predicate FieldIsDocument(t: Type, v: Value, i: nat)
    requires t.Struct? && HasType(t, v) && v.VStruct? && i < |t.fields| && v.slots[i].Set?
  {
    ItemIsDocument(t.fields[i].typ, v.slots[i].value)
  }

  ghost predicate FieldsAreDocuments(t: Type, v: Value)
    requires t.Struct? && HasType(t, v) && v.VStruct?
  {
    forall i :: 0 <= i < |t.fields| && v.slots[i].Set? ==> FieldIsDocument(t, v, i)
  }

  lemma {:induction false} PartsAreWritten(t: Type, v: Value, k: nat)
    requires t.Struct? && HasType(t, v) && v.VStruct? && Transportable(v) && k <= |t.order|
    requires FieldsAreDocuments(t, v)
    ensures Wires(t.fields, Fields(PartsOf(t, v, k))) == WireFields(t, v, k)
    decreases |t.order| - k
  {
    if k < |t.order| {
      PartsAreWritten(t, v, k + 1);
      var i := t.order[k];
      if v.slots[i].Set? {
        assert FieldIsDocument(t, v, i);
        var part := Known(i, DocumentOf(t.fields[i].typ, v.slots[i].value));
        assert Wire(t.fields, part) == WireOf(t, v, i);
        WiresCons(t.fields, part, PartsOf(t, v, k + 1));
      }
    }
  }

  lemma {:induction false} WiresCons(fields: seq<Field>, p: Part, ps: seq<Part>)
    ensures Wires(fields, Fields([p] + ps)) == [Wire(fields, p)] + Wires(fields, Fields(ps))
  {}

  lemma {:induction false} PartsOfSay(t: Type, v: Value, k: nat, j: nat)
    requires t.Struct? && HasType(t, v) && v.VStruct? && Transportable(v) && k <= |t.order|
    requires FieldsAreDocuments(t, v) && j < |PartsOf(t, v, k)|
    ensures PartSays(t.fields, PartsOf(t, v, k)[j], v.slots)
    decreases |t.order| - k
  {
    var i := t.order[k];
    if v.slots[i].Unset? {
      PartsOfSay(t, v, k + 1, j);
    } else if j > 0 {
      PartsOfSay(t, v, k + 1, j - 1);
    } else {
      assert FieldIsDocument(t, v, i);
    }
  }

  lemma {:induction false} PartsOfCover(t: Type, v: Value, k: nat, m: nat) returns (j: nat)
    requires t.Struct? && HasType(t, v) && v.VStruct? && Transportable(v) && k <= m < |t.order|
    requires v.slots[t.order[m]].Set?
    ensures j < |PartsOf(t, v, k)| && IsFor(PartsOf(t, v, k)[j], t.order[m])
    decreases m - k
  {
    if k == m {
      j := 0;
    } else {
      j := PartsOfCover(t, v, k + 1, m);
      if v.slots[t.order[k]].Set? { j := j + 1; }
    }
  }

  lemma {:induction false} AllPartsSay(t: Type, v: Value)
    requires t.Struct? && HasType(t, v) && v.VStruct? && Transportable(v) && FieldsAreDocuments(t, v)
    ensures Says(t, Fields(PartsOf(t, v, 0)), v)
  {
    var parts := PartsOf(t, v, 0);
    forall j | 0 <= j < |parts| ensures PartSays(t.fields, parts[j], v.slots) {
      PartsOfSay(t, v, 0, j);
    }
    forall i | 0 <= i < |t.fields| && v.slots[i].Set?
      ensures exists j :: 0 <= j < |parts| && IsFor(parts[j], i)
    {
      assert i in t.order;
      var m :| 0 <= m < |t.order| && t.order[m] == i;
      var j := PartsOfCover(t, v, 0, m);
    }
  }

  lemma {:induction false} ItemsAreWritten(elem: Type, items: seq<Value>, k: nat)
    requires ItemsHaveType(elem, items) && (forall i :: 0 <= i < |items| ==> Transportable(items[i]))
    requires k <= |items| && forall i :: 0 <= i < |items| ==> ItemIsDocument(elem, items[i])
    ensures ItemsHaveType(elem, items[k..])
    ensures ItemsWritten(elem, Elements(DocumentsOf(elem, items)), k, items[k..])
    decreases |items| - k
  {
    if k < |items| {
      ItemsAreWritten(elem, items, k + 1);
      OneItemWritten(elem, Elements(DocumentsOf(elem, items)), k, items[k], items[k + 1..]);
      assert items[k..] == [items[k]] + items[k + 1..];
    }
  }

  /** The elements from index `k` on say the items and are written as they are. */
  ghost predicate ItemsWritten(elem: Type, d: Document, k: nat, vs: seq<Value>)
    requires d.Elements? && k <= |d.items| && ItemsHaveType(elem, vs)
  {
    ItemsSay(elem, d, k, vs) && ItemBytes(elem, d, k) == EncodeItems(elem, vs)
  }

  lemma {:induction false} OneItemWritten(elem: Type, d: Document, k: nat, v: Value, vs: seq<Value>)
    requires d.Elements? && k < |d.items| && ItemsHaveType(elem, vs)
    requires ItemIsDocument(elem, v) && d.items[k] == DocumentOf(elem, v) && ItemsWritten(elem, d, k + 1, vs)
    ensures ItemsHaveType(elem, [v] + vs) && ItemsWritten(elem, d, k, [v] + vs)
  {
    EncodeItemsCons(elem, v, vs);
    assert ([v] + vs)[1..] == vs;
  }
}

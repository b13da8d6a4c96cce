/** Skipping passes over exactly one value, whatever its type: every value of the binary protocol,
    and in particular everything that this codec writes. */
module ThriftSkipping {
  import opened ThriftPrimitives
  import opened ThriftCodec
  import opened ThriftMessages
  import opened ThriftRoundTrip

  // ---------------------------------------------------------------------------------------
  // Any value of the protocol
  // ---------------------------------------------------------------------------------------

  /** A value as the Apache Thrift binary protocol encoding specification describes it: numbers and
      bools of a fixed width, strings, structs, lists, sets and maps. */
  datatype Any =
    | Number(code: byte, bytes: seq<byte>)
    | Text(bytes: seq<byte>)
    | Record(fields: seq<AnyField>)
    | Sequence(isSet: bool, elem: byte, items: seq<Any>)
    | Dictionary(key: byte, value: byte, entries: seq<AnyEntry>)

  datatype AnyField = AnyField(id: int, value: Any)

  datatype AnyEntry = AnyEntry(key: Any, value: Any)

  /** Bool 2, byte 3, double 4, i16 6, i32 8, i64 10. */
  function Width(code: byte): nat {
    match code
    case 2 => 1
    case 3 => 1
    case 4 => 8
    case 6 => 2
    case 8 => 4
    case 10 => 8
    case _ => 0
  }

  /** String 11, struct 12, map 13, set 14, list 15. */
  function TypeCode(v: Any): byte {
    match v
    case Number(code, _) => code
    case Text(_) => 11
    case Record(_) => 12
    case Sequence(isSet, _, _) => if isSet then 14 else 15
    case Dictionary(_, _, _) => 13
  }

  ghost predicate WellFormed(v: Any)
    decreases v
  {
    match v
    case Number(code, bytes) => Width(code) > 0 && |bytes| == Width(code)
    case Text(bytes) => |bytes| < 0x8000_0000
    case Record(fields) =>
      forall i :: 0 <= i < |fields| ==> IdFits(fields[i].id) && WellFormed(fields[i].value)
    case Sequence(_, elem, items) =>
      |items| < 0x8000_0000 && forall i :: 0 <= i < |items| ==> TypeCode(items[i]) == elem && WellFormed(items[i])
    case Dictionary(key, value, entries) =>
      && |entries| < 0x8000_0000
      && (forall i :: 0 <= i < |entries| ==>
            && TypeCode(entries[i].key) == key && WellFormed(entries[i].key)
            && TypeCode(entries[i].value) == value && WellFormed(entries[i].value))
  }

  function Write(v: Any): seq<byte>
    decreases v, 1, 0
  {
    match v
    case Number(_, bytes) => bytes
    case Text(bytes) => WriteInt(|bytes|, 4) + bytes
    case Record(_) => WriteFieldsFrom(v, 0)
    case Sequence(_, elem, items) => [elem] + WriteInt(|items|, 4) + WriteItemsFrom(v, 0)
    case Dictionary(key, value, entries) => [key] + [value] + WriteInt(|entries|, 4) + WriteEntriesFrom(v, 0)
  }

  function WriteFieldsFrom(v: Any, k: nat): seq<byte>
    requires v.Record? && k <= |v.fields|
    decreases v, 0, |v.fields| - k
  {
    if k == |v.fields| then [0]
    else
      var f := v.fields[k];
      [TypeCode(f.value)] + WriteInt(f.id, 2) + Write(f.value) + WriteFieldsFrom(v, k + 1)
  }

  function WriteItemsFrom(v: Any, k: nat): seq<byte>
    requires v.Sequence? && k <= |v.items|
    decreases v, 0, |v.items| - k
  {
    if k == |v.items| then [] else Write(v.items[k]) + WriteItemsFrom(v, k + 1)
  }

  function WriteEntriesFrom(v: Any, k: nat): seq<byte>
    requires v.Dictionary? && k <= |v.entries|
    decreases v, 0, |v.entries| - k
  {
    if k == |v.entries| then []
    else Write(v.entries[k].key) + Write(v.entries[k].value) + WriteEntriesFrom(v, k + 1)
  }

  // ---------------------------------------------------------------------------------------
  // Skipping it
  // ---------------------------------------------------------------------------------------

  /** The outcome of passing over the `n` bytes of a value. */
  ghost predicate Passes(r: Outcome<()>, n: nat) {
    r.Ok? && r.used == n
  }

  /** Skipping a value by its type code passes over exactly its bytes, whatever follows. */
  lemma {:induction false} SkipsAny(v: Any, rest: seq<byte>)
    requires WellFormed(v)
    ensures Passes(Skip(TypeCode(v), Write(v) + rest), |Write(v)|)
    decreases v, 1, 0
  {
    match v
    case Number(code, bytes) => SkipsNumber(code, bytes, rest);
    case Text(bytes) => StringRoundTrip(bytes, rest);
    case Record(_) => SkipsFields(v, 0, rest);
    case Sequence(_, _, _) => SkipsSequence(v, rest);
    case Dictionary(_, _, _) => SkipsDictionary(v, rest);
  }

  lemma SkipsNumber(code: byte, bytes: seq<byte>, rest: seq<byte>)
    requires Width(code) > 0 && |bytes| == Width(code)
    ensures Passes(Skip(code, bytes + rest), |bytes|)
  {}

  lemma {:induction false} SkipsSequence(v: Any, rest: seq<byte>)
    requires v.Sequence? && WellFormed(v)
    ensures Passes(Skip(TypeCode(v), Write(v) + rest), |Write(v)|)
    decreases v, 0, |v.items| + 1
  {
    var body := WriteItemsFrom(v, 0);
    assert Write(v) + rest == WriteListBegin(v.elem, |v.items|) + (body + rest);
    ListBeginRoundTrip(v.elem, |v.items|, body + rest);
    SkipsItems(v, 0, rest);
    assert (Write(v) + rest)[5..] == body + rest;
  }

  lemma {:induction false} SkipsDictionary(v: Any, rest: seq<byte>)
    requires v.Dictionary? && WellFormed(v)
    ensures Passes(Skip(13, Write(v) + rest), |Write(v)|)
    decreases v, 0, |v.entries| + 1
  {
    var body := WriteEntriesFrom(v, 0);
    var buf := Write(v) + rest;
    assert buf[1..] == WriteListBegin(v.value, |v.entries|) + (body + rest);
    ListBeginRoundTrip(v.value, |v.entries|, body + rest);
    SkipsEntries(v, 0, rest);
    assert buf[6..] == body + rest;
  }

  lemma {:induction false} SkipsFields(v: Any, k: nat, rest: seq<byte>)
    requires v.Record? && WellFormed(v) && k <= |v.fields|
    ensures Passes(SkipFields(WriteFieldsFrom(v, k) + rest), |WriteFieldsFrom(v, k)|)
    decreases v, 0, |v.fields| - k
  {
    if k < |v.fields| {
      var f, later := v.fields[k], WriteFieldsFrom(v, k + 1);
      TypeCodeIsNotStop(f.value);
      SkipsAny(f.value, later + rest);
      SkipsFields(v, k + 1, rest);
      OneFieldPassed(TypeCode(f.value), f.id, Write(f.value), later, rest);
      assert WriteFieldsFrom(v, k) == WriteFieldBegin(TypeCode(f.value), f.id) + Write(f.value) + later;
    } else {
      assert ([0] + rest)[0] == STOP;
    }
  }

  lemma TypeCodeIsNotStop(v: Any)
    requires WellFormed(v)
    ensures TypeCode(v) != STOP
  {}

  lemma {:induction false} OneFieldPassed(code: byte, id: int, payload: seq<byte>, later: seq<byte>, rest: seq<byte>)
    requires code != STOP && IdFits(id)
    requires Passes(Skip(code, payload + (later + rest)), |payload|) && Passes(SkipFields(later + rest), |later|)
    ensures Passes(SkipFields(WriteFieldBegin(code, id) + payload + later + rest), 3 + |payload| + |later|)
  {
    var buf := WriteFieldBegin(code, id) + payload + later + rest;
    assert buf == WriteFieldBegin(code, id) + (payload + (later + rest));
    FieldBeginRoundTrip(code, id, payload + (later + rest));
    assert buf[3..] == payload + (later + rest);
    assert buf[3 + |payload|..] == later + rest;
  }

  lemma {:induction false} SkipsItems(v: Any, k: nat, rest: seq<byte>)
    requires v.Sequence? && WellFormed(v) && k <= |v.items|
    ensures Passes(SkipItems([v.elem], |v.items| - k, WriteItemsFrom(v, k) + rest), |WriteItemsFrom(v, k)|)
    decreases v, 0, |v.items| - k
  {
    if k < |v.items| {
      SkipsAny(v.items[k], WriteItemsFrom(v, k + 1) + rest);
      SkipsItems(v, k + 1, rest);
      OneItemPassed(v.elem, |v.items| - k, Write(v.items[k]), WriteItemsFrom(v, k + 1), rest);
    }
  }

  lemma {:induction false} OneItemPassed(code: byte, count: nat, item: seq<byte>, later: seq<byte>, rest: seq<byte>)
    requires count > 0 && Passes(Skip(code, item + (later + rest)), |item|)
    requires Passes(SkipItems([code], count - 1, later + rest), |later|)
    ensures Passes(SkipItems([code], count, item + later + rest), |item| + |later|)
  {
    var buf := item + later + rest;
    assert buf == item + (later + rest);
    assert buf[|item|..] == later + rest;
    OnePassed(code, buf, |item|);
  }

  lemma {:induction false} SkipsEntries(v: Any, k: nat, rest: seq<byte>)
    requires v.Dictionary? && WellFormed(v) && k <= |v.entries|
    ensures Passes(SkipItems([v.key, v.value], |v.entries| - k, WriteEntriesFrom(v, k) + rest),
                   |WriteEntriesFrom(v, k)|)
    decreases v, 0, |v.entries| - k
  {
    if k < |v.entries| {
      var e, later := v.entries[k], WriteEntriesFrom(v, k + 1);
      SkipsAny(e.key, Write(e.value) + (later + rest));
      SkipsAny(e.value, later + rest);
      SkipsEntries(v, k + 1, rest);
      OneEntryPassed(v.key, v.value, |v.entries| - k, Write(e.key), Write(e.value), later, rest);
    }
  }

  lemma {:induction false} OneEntryPassed(
    c: byte, d: byte, count: nat, key: seq<byte>, value: seq<byte>, later: seq<byte>, rest: seq<byte>)
    requires count > 0 && Passes(Skip(c, key + (value + (later + rest))), |key|)
    requires Passes(Skip(d, value + (later + rest)), |value|)
    requires Passes(SkipItems([c, d], count - 1, later + rest), |later|)
    ensures Passes(SkipItems([c, d], count, key + value + later + rest), |key| + |value| + |later|)
  {
    var buf, row := key + value + later + rest, key + value;
    TwoPassed(c, d, key, value, later + rest);
    assert buf == row + (later + rest);
    assert buf[|row|..] == later + rest;
  }

  lemma {:induction false} TwoPassed(c: byte, d: byte, key: seq<byte>, value: seq<byte>, rest: seq<byte>)
    requires Passes(Skip(c, key + (value + rest)), |key|) && Passes(Skip(d, value + rest), |value|)
    ensures Passes(SkipRow([c, d], key + value + rest), |key| + |value|)
  {
    var buf := key + value + rest;
    assert buf == key + (value + rest);
    assert buf[|key|..] == value + rest;
    assert [c, d][1..] == [d];
    OnePassed(d, value + rest, |value|);
  }

  lemma {:induction false} OnePassed(code: byte, buf: seq<byte>, n: nat)
    requires Passes(Skip(code, buf), n)
    ensures Passes(SkipRow([code], buf), n)
  {
    assert [code][1..] == [];
  }

  // ---------------------------------------------------------------------------------------
  // What this codec writes is one of these values
  // ---------------------------------------------------------------------------------------

  ghost function AnyOf(t: Type, v: Value): Any
    requires HasType(t, v) && Transportable(v)
    decreases t, 1, 0
  {
    match t
    case Bool => Number(2, [if v.b then 1 else 0])
    case Int32 => Number(8, WriteInt(v.n, 4))
    case Int64 => Number(10, WriteInt(v.n, 8))
    case String => Text(v.s)
    case Struct(_, _) => Record(AnyFields(t, v, 0))
    case List(elem) => Sequence(false, Code(elem), AnyItems(elem, v.items))
  }

  ghost function AnyFields(t: Type, v: Value, k: nat): seq<AnyField>
    requires t.Struct? && HasType(t, v) && v.VStruct? && Transportable(v) && k <= |t.order|
    decreases t, 0, |t.order| - k
  {
    if k == |t.order| then []
    else
      var i := t.order[k];
      if v.slots[i].Unset? then AnyFields(t, v, k + 1)
      else [AnyField(t.fields[i].id, AnyOf(t.fields[i].typ, v.slots[i].value))] + AnyFields(t, v, k + 1)
  }

  ghost function AnyItems(elem: Type, items: seq<Value>): (xs: seq<Any>)
    requires ItemsHaveType(elem, items) && forall i :: 0 <= i < |items| ==> Transportable(items[i])
    ensures |xs| == |items| && forall i :: 0 <= i < |items| ==> xs[i] == AnyOf(elem, items[i])
    decreases elem, 2, 0
  {
    seq(|items|, i requires 0 <= i < |items| => AnyOf(elem, items[i]))
  }

  lemma {:induction false} EncodingIsAny(t: Type, v: Value)
    requires ValidType(t) && HasType(t, v) && Transportable(v)
    ensures WellFormed(AnyOf(t, v)) && TypeCode(AnyOf(t, v)) == Code(t) && Write(AnyOf(t, v)) == Encode(t, v)
    decreases t, 1, 0
  {
    match t
    case Struct(fields, _) =>
      forall i | 0 <= i < |fields| && v.slots[i].Set? ensures IsAny(fields[i].typ, v.slots[i].value) {
        EncodingIsAny(fields[i].typ, v.slots[i].value);
      }
      FieldsAreAny(t, v, 0);
      FieldsWritten(t, v, AnyOf(t, v), 0, 0);
    case List(elem) =>
      forall i | 0 <= i < |v.items| ensures IsAny(elem, v.items[i]) {
        EncodingIsAny(elem, v.items[i]);
      }
      ItemsAreAny(elem, v.items, AnyOf(t, v), 0);
      assert v.items[0..] == v.items;
    case _ =>
  }

  ghost predicate IsAny(t: Type, v: Value) {
    && HasType(t, v) && Transportable(v)
    && WellFormed(AnyOf(t, v)) && TypeCode(AnyOf(t, v)) == Code(t) && Write(AnyOf(t, v)) == Encode(t, v)
  }

  ghost predicate SlotsAreAny(t: Type, v: Value)
    requires t.Struct? && HasType(t, v) && v.VStruct?
  {
    forall i :: 0 <= i < |t.fields| && v.slots[i].Set? ==> IsAny(t.fields[i].typ, v.slots[i].value)
  }

  lemma {:induction false} FieldsAreAny(t: Type, v: Value, k: nat)
    requires t.Struct? && ValidType(t) && HasType(t, v) && v.VStruct? && Transportable(v) && k <= |t.order|
    requires SlotsAreAny(t, v)
    ensures WellFormed(Record(AnyFields(t, v, k)))
    decreases |t.order| - k
  {
    if k < |t.order| {
      FieldsAreAny(t, v, k + 1);
      var i := t.order[k];
      if v.slots[i].Set? { assert IsAny(t.fields[i].typ, v.slots[i].value); }
    }
  }

  /** The fields from position `k` of the writing order on are those of `r` from `j` on. */
  lemma {:induction false} FieldsWritten(t: Type, v: Value, r: Any, k: nat, j: nat)
    requires t.Struct? && ValidType(t) && HasType(t, v) && v.VStruct? && Transportable(v) && k <= |t.order|
    requires SlotsAreAny(t, v) && r.Record? && j <= |r.fields| && r.fields[j..] == AnyFields(t, v, k)
    ensures WriteFieldsFrom(r, j) == EncodeFields(t, v, k) + [0]
    decreases |t.order| - k
  {
    if k < |t.order| {
      var i := t.order[k];
      if v.slots[i].Unset? {
        FieldsWritten(t, v, r, k + 1, j);
        assert EncodeFields(t, v, k) == EncodeFields(t, v, k + 1);
      } else {
        assert IsAny(t.fields[i].typ, v.slots[i].value);
        assert r.fields[j] == r.fields[j..][0] == AnyField(t.fields[i].id, AnyOf(t.fields[i].typ, v.slots[i].value));
        assert r.fields[j + 1..] == r.fields[j..][1..] == AnyFields(t, v, k + 1);
        FieldsWritten(t, v, r, k + 1, j + 1);
      }
    }
  }

  lemma {:induction false} ItemsAreAny(elem: Type, items: seq<Value>, s: Any, k: nat)
    requires ItemsHaveType(elem, items) && (forall i :: 0 <= i < |items| ==> Transportable(items[i]))
    requires k <= |items| && forall i :: 0 <= i < |items| ==> IsAny(elem, items[i])
    requires s.Sequence? && s.items == AnyItems(elem, items)
    ensures ItemsHaveType(elem, items[k..]) && WriteItemsFrom(s, k) == EncodeItems(elem, items[k..])
    decreases |items| - k
  {
    if k < |items| {
      ItemsAreAny(elem, items, s, k + 1);
      assert IsAny(elem, items[k]);
      assert items[k..] == [items[k]] + items[k + 1..];
      EncodeItemsCons(elem, items[k], items[k + 1..]);
    }
  }

  /** A reader that does not want a value of this codec passes over exactly its encoding. */
  lemma {:induction false} SkipsEncoding(t: Type, v: Value, rest: seq<byte>)
    requires ValidType(t) && HasType(t, v) && Transportable(v)
    ensures Skip(Code(t), Encode(t, v) + rest) == Ok((), |Encode(t, v)|)
  {
    EncodingIsAny(t, v);
    SkipsAny(AnyOf(t, v), rest);
    assert Skip(Code(t), Encode(t, v) + rest).value == ();
  }

  // ---------------------------------------------------------------------------------------
  // Forward compatibility with any value
  // ---------------------------------------------------------------------------------------

  /** A field of unknown id, or of a known id and another type, whatever well-formed value it holds. */
  function Unknown(id: int, v: Any): WireField {
    WireField(TypeCode(v), id, Write(v))
  }

  lemma AnyFieldIsAccepted(fields: seq<Field>, id: int, v: Any)
    requires WellFormed(v) && IdFits(id) && !Wanted(fields, TypeCode(v), id)
    ensures Accepted(fields, Unknown(id, v))
  {
    TypeCodeIsNotStop(v);
    SkipsAny(v, []);
    assert Write(v) + [] == Write(v);
    assert Skip(TypeCode(v), Write(v)).value == ();
  }

  /** A newer writer may put a field with any value of the protocol at any place: the reader's answer
      changes only in the number of bytes used. */
  lemma UnknownFieldIsIgnored(t: Type, ws: seq<WireField>, k: nat, id: int, v: Any, rest: seq<byte>)
    requires t.Struct? && AllAccepted(t.fields, ws) && k <= |ws|
    requires WellFormed(v) && IdFits(id) && !Wanted(t.fields, TypeCode(v), id)
    ensures Decode(t, Message(ws[..k] + [Unknown(id, v)] + ws[k..]) + rest)
         == Advance(Decode(t, Message(ws) + rest), 3 + |Write(v)|)
  {
    AnyFieldIsAccepted(t.fields, id, v);
    UnwantedFieldIsIgnored(t, ws, k, Unknown(id, v), rest);
  }
}

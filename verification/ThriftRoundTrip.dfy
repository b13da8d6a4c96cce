/** What the reader makes of what the writer wrote. */
module ThriftRoundTrip {
  import opened ThriftPrimitives
  import opened ThriftCodec
  import opened ThriftMessages

  // ---------------------------------------------------------------------------------------
  // Reading an encoding gives the value back
  // ---------------------------------------------------------------------------------------

  /** `cur` holds the slots that the first `k` written fields fill, and nothing else. */
  ghost predicate Progress(t: Type, v: Value, k: nat, cur: seq<Slot>)
    requires t.Struct? && v.VStruct? && k <= |t.order|
  {
    && |cur| == |t.fields| == |v.slots|
    && (forall i :: 0 <= i < |cur| ==> cur[i] == if i in t.order[..k] then v.slots[i] else Unset)
  }

  lemma {:induction false} RoundTrip(t: Type, v: Value, rest: seq<byte>)
    requires ValidType(t) && HasType(t, v) && Transportable(v)
    ensures Decode(t, Encode(t, v) + rest) == Ok(v, |Encode(t, v)|)
    decreases t, 1
  {
    match t
    case Bool =>
    case Int32 => IntRoundTrip(v.n, 4, rest);
    case Int64 => IntRoundTrip(v.n, 8, rest);
    case String => StringRoundTrip(v.s, rest);
    case Struct(fields, order) =>
      RoundTripFields(t, v, 0, EmptySlots(fields), rest);
    case List(elem) =>
      var body := EncodeItems(elem, v.items);
      var buf := Encode(t, v) + rest;
      assert buf == WriteListBegin(Code(elem), |v.items|) + (body + rest);
      ListBeginRoundTrip(Code(elem), |v.items|, body + rest);
      assert buf[5..] == body + rest;
      RoundTripItems(elem, v.items, rest);
  }

  lemma {:induction false} RoundTripFields(t: Type, v: Value, k: nat, cur: seq<Slot>, rest: seq<byte>)
    requires t.Struct? && ValidType(t) && HasType(t, v) && Transportable(v) && k <= |t.order|
    requires Progress(t, v, k, cur)
    ensures DecodeFields(t, EncodeFields(t, v, k) + [STOP] + rest, cur)
         == Ok(v, |EncodeFields(t, v, k)| + 1)
    decreases t, 0, |t.order| - k + 1
  {
    if k == |t.order| {
      ProgressDone(t, v, cur);
      ReadStop(t, v, cur, rest);
    } else {
      var i := t.order[k];
      ProgressStep(t, v, k, cur);
      RoundTripFields(t, v, k + 1, cur[i := v.slots[i]], rest);
      if v.slots[i].Unset? {
        UnsetFieldRead(t, v, k, cur, rest);
      } else {
        WireOfAccepted(t, v, i);
        SetFieldRead(t, v, k, cur, rest);
      }
    }
  }

  lemma {:induction false} UnsetFieldRead(t: Type, v: Value, k: nat, cur: seq<Slot>, rest: seq<byte>)
    requires t.Struct? && HasType(t, v) && v.VStruct? && k < |t.order| && |cur| == |t.fields|
    requires v.slots[t.order[k]].Unset?
    requires DecodeFields(t, EncodeFields(t, v, k + 1) + [STOP] + rest, cur) == Ok(v, |EncodeFields(t, v, k + 1)| + 1)
    ensures DecodeFields(t, EncodeFields(t, v, k) + [STOP] + rest, cur) == Ok(v, |EncodeFields(t, v, k)| + 1)
  {
    assert EncodeFields(t, v, k) == EncodeFields(t, v, k + 1);
  }

  lemma {:induction false} SetFieldRead(t: Type, v: Value, k: nat, cur: seq<Slot>, rest: seq<byte>)
    requires t.Struct? && HasType(t, v) && v.VStruct? && k < |t.order| && |cur| == |t.fields|
    requires var i := t.order[k]; v.slots[i].Set? && ReadsBack(t, v, i)
    requires DecodeFields(t, EncodeFields(t, v, k + 1) + [STOP] + rest, cur[t.order[k] := v.slots[t.order[k]]])
          == Ok(v, |EncodeFields(t, v, k + 1)| + 1)
    ensures DecodeFields(t, EncodeFields(t, v, k) + [STOP] + rest, cur) == Ok(v, |EncodeFields(t, v, k)| + 1)
  {
    var head, tail := EncodeField(t, v, t.order[k]), EncodeFields(t, v, k + 1);
    assert EncodeFields(t, v, k) == head + tail;
    Regroup(head, tail, [STOP], rest);
    ReadWritten(t, v, t.order[k], cur, tail + [STOP] + rest);
  }

  lemma {:induction false} ReadStop(t: Type, v: Value, cur: seq<Slot>, rest: seq<byte>)
    requires t.Struct? && HasType(t, v) && v.VStruct? && cur == v.slots
    ensures DecodeFields(t, [] + [STOP] + rest, cur) == Ok(v, 1)
  {
    assert ([] + [STOP] + rest)[0] == STOP;
  }

  /** Reading one written field puts its value into its slot. */
  lemma {:induction false} ReadWritten(t: Type, v: Value, i: nat, cur: seq<Slot>, later: seq<byte>)
    requires t.Struct? && HasType(t, v) && v.VStruct? && i < |t.fields| == |cur| && v.slots[i].Set?
    requires ReadsBack(t, v, i)
    ensures DecodeFields(t, EncodeField(t, v, i) + later, cur)
         == Advance(DecodeFields(t, later, cur[i := v.slots[i]]), |EncodeField(t, v, i)|)
  {
    ReadOne(t, WireOf(t, v, i), cur, later);
  }

  lemma {:induction false} ProgressDone(t: Type, v: Value, cur: seq<Slot>)
    requires t.Struct? && v.VStruct? && IsOrder(t.order, |t.fields|) && Progress(t, v, |t.order|, cur)
    ensures cur == v.slots
  {
    assert t.order[..|t.order|] == t.order;
  }

  lemma {:induction false} ProgressStep(t: Type, v: Value, k: nat, cur: seq<Slot>)
    requires t.Struct? && v.VStruct? && IsOrder(t.order, |t.fields|) && k < |t.order|
    requires Progress(t, v, k, cur)
    ensures Progress(t, v, k + 1, cur[t.order[k] := v.slots[t.order[k]]])
    ensures v.slots[t.order[k]].Unset? ==> cur[t.order[k] := v.slots[t.order[k]]] == cur
  {
    assert t.order[..k + 1] == t.order[..k] + [t.order[k]];
  }

  /** The wire field that the writer produces for slot `i`. */
  ghost function WireOf(t: Type, v: Value, i: nat): (f: WireField)
    requires t.Struct? && HasType(t, v) && v.VStruct? && i < |t.fields| && v.slots[i].Set?
    ensures Raw(f) == EncodeField(t, v, i)
  {
    WireField(Code(t.fields[i].typ), t.fields[i].id, Encode(t.fields[i].typ, v.slots[i].value))
  }

  /** The reader takes that field and puts the value back in the same slot. */
  ghost predicate ReadsBack(t: Type, v: Value, i: nat)
    requires t.Struct? && HasType(t, v) && v.VStruct? && i < |t.fields| && v.slots[i].Set?
  {
    var f := WireOf(t, v, i);
    && Accepted(t.fields, f) && Fills(t.fields, f, i)
    && Decode(t.fields[i].typ, f.payload).value == v.slots[i].value
  }

  lemma {:induction false} WireOfAccepted(t: Type, v: Value, i: nat)
    requires t.Struct? && ValidType(t) && HasType(t, v) && v.VStruct? && Transportable(v)
    requires i < |t.fields| && v.slots[i].Set?
    ensures ReadsBack(t, v, i)
    decreases t, 0, 0
  {
    var w := v.slots[i].value;
    RoundTrip(t.fields[i].typ, w, []);
    assert Encode(t.fields[i].typ, w) + [] == Encode(t.fields[i].typ, w);
    assert Find(t.fields, t.fields[i].id) == i;
  }

  lemma {:induction false} RoundTripItems(elem: Type, items: seq<Value>, rest: seq<byte>)
    requires ValidType(elem)
    requires ItemsHaveType(elem, items) && forall i :: 0 <= i < |items| ==> Transportable(items[i])
    ensures DecodeItems(elem, |items|, EncodeItems(elem, items) + rest)
         == Ok(items, |EncodeItems(elem, items)|)
    decreases elem, 2, |items|
  {
    if items == [] {
    } else {
      var v, vs := items[0], items[1..];
      assert items == [v] + vs;
      RoundTripItems(elem, vs, rest);
      RoundTrip(elem, v, EncodeItems(elem, vs) + rest);
      ItemsStep(elem, v, vs, rest);
    }
  }

  lemma Regroup(a: seq<byte>, b: seq<byte>, c: seq<byte>, d: seq<byte>)
    ensures a + b + c + d == a + (b + c + d)
    ensures a + b + c == a + (b + c)
  {}

  lemma {:induction false} ItemsStep(elem: Type, v: Value, vs: seq<Value>, rest: seq<byte>)
    requires HasType(elem, v) && ItemsHaveType(elem, vs) && ItemsHaveType(elem, [v] + vs)
    requires Decode(elem, Encode(elem, v) + (EncodeItems(elem, vs) + rest)) == Ok(v, |Encode(elem, v)|)
    requires DecodeItems(elem, |vs|, EncodeItems(elem, vs) + rest) == Ok(vs, |EncodeItems(elem, vs)|)
    ensures DecodeItems(elem, |[v] + vs|, EncodeItems(elem, [v] + vs) + rest)
         == Ok([v] + vs, |EncodeItems(elem, [v] + vs)|)
  {
    EncodeItemsCons(elem, v, vs);
    OneMoreItem(elem, Encode(elem, v), EncodeItems(elem, vs), rest, v, vs);
  }

  /** Reading an item and the items behind it. */
  lemma {:induction false} OneMoreItem(
    elem: Type, head: seq<byte>, tail: seq<byte>, rest: seq<byte>, v: Value, vs: seq<Value>)
    requires Decode(elem, head + (tail + rest)) == Ok(v, |head|)
    requires DecodeItems(elem, |vs|, tail + rest) == Ok(vs, |tail|)
    ensures DecodeItems(elem, |[v] + vs|, (head + tail) + rest) == Ok([v] + vs, |head + tail|)
  {
    Regroup(head, tail, rest, []);
    DecodeItemsCons(elem, head, tail + rest, v, vs, |tail|);
  }

  lemma {:induction false} DecodeItemsCons(
    elem: Type, head: seq<byte>, tail: seq<byte>, v: Value, vs: seq<Value>, m: nat)
    requires Decode(elem, head + tail) == Ok(v, |head|)
    requires DecodeItems(elem, |vs|, tail) == Ok(vs, m)
    ensures DecodeItems(elem, |[v] + vs|, head + tail) == Ok([v] + vs, |head| + m)
  {
    assert (head + tail)[|head|..] == tail;
  }

  // ---------------------------------------------------------------------------------------
  // Whatever the reader accepts is a value of the type, free of nil structs
  // ---------------------------------------------------------------------------------------

  /** The outcome is an error, or a value of the type without nil structs. */
  ghost predicate Typed(t: Type, r: Outcome<Value>) {
    r.Ok? ==> HasType(t, r.value) && Transportable(r.value)
  }

  lemma {:induction false} DecodedIsTyped(t: Type, buf: seq<byte>)
    requires ValidType(t)
    ensures Typed(t, Decode(t, buf))
    decreases t, 1
  {
    match t
    case Bool =>
    case Int32 =>
    case Int64 =>
    case String =>
    case Struct(fields, order) => DecodedFieldsAreTyped(t, buf, EmptySlots(fields));
    case List(elem) =>
      if ReadListBegin(buf).Ok? {
        DecodedItemsAreTyped(elem, ReadListBegin(buf).value.size, buf[5..]);
      }
  }

  ghost predicate TypedSlots(t: Type, slots: seq<Slot>)
    requires t.Struct?
  {
    && |slots| == |t.fields|
    && (forall i :: 0 <= i < |slots| && slots[i].Set? ==>
          HasType(t.fields[i].typ, slots[i].value) && Transportable(slots[i].value))
  }

  lemma SlotIsTyped(t: Type, slots: seq<Slot>, i: nat, v: Value)
    requires t.Struct? && TypedSlots(t, slots) && i < |slots|
    requires HasType(t.fields[i].typ, v) && Transportable(v)
    ensures TypedSlots(t, slots[i := Set(v)])
  {}

  lemma {:induction false} FinishedIsTyped(t: Type, slots: seq<Slot>, used: nat)
    requires t.Struct? && ValidType(t) && TypedSlots(t, slots)
    ensures Typed(t, Finish(t.fields, slots, used))
  {}

  lemma AdvancedIsTyped(t: Type, r: Outcome<Value>, n: nat)
    ensures Typed(t, Advance(r, n)) <==> Typed(t, r)
  {}

  lemma {:induction false} DecodedFieldsAreTyped(t: Type, buf: seq<byte>, slots: seq<Slot>)
    requires t.Struct? && ValidType(t) && TypedSlots(t, slots)
    ensures Typed(t, DecodeFields(t, buf, slots))
    decreases t, 0, |buf|
  {
    var h := ReadFieldBegin(buf);
    if h.Ok? && h.value.End? {
      FinishedIsTyped(t, slots, 1);
    } else if h.Ok? {
      var Begin(code, id) := h.value;
      if Wanted(t.fields, code, id) {
        TakenFieldIsTyped(t, buf, slots, Find(t.fields, id));
      } else {
        var s := Skip(code, buf[3..]);
        if s.Ok? {
          DecodedFieldsAreTyped(t, buf[3 + s.used..], slots);
          AdvancedIsTyped(t, DecodeFields(t, buf[3 + s.used..], slots), 3 + s.used);
        }
      }
    }
  }

  lemma {:induction false} TakenFieldIsTyped(t: Type, buf: seq<byte>, slots: seq<Slot>, i: nat)
    requires t.Struct? && ValidType(t) && TypedSlots(t, slots) && i < |t.fields| && 3 <= |buf|
    ensures match Decode(t.fields[i].typ, buf[3..])
      case Err(_) => true
      case Ok(v, n) => Typed(t, Advance(DecodeFields(t, buf[3 + n..], slots[i := Set(v)]), 3 + n))
    decreases t, 0, |buf| - 1
  {
    DecodedIsTyped(t.fields[i].typ, buf[3..]);
    var r := Decode(t.fields[i].typ, buf[3..]);
    if r.Ok? {
      SlotIsTyped(t, slots, i, r.value);
      DecodedFieldsAreTyped(t, buf[3 + r.used..], slots[i := Set(r.value)]);
      AdvancedIsTyped(t, DecodeFields(t, buf[3 + r.used..], slots[i := Set(r.value)]), 3 + r.used);
    }
  }

  ghost predicate TypedItems(elem: Type, items: seq<Value>) {
    forall i :: 0 <= i < |items| ==> HasType(elem, items[i]) && Transportable(items[i])
  }

  lemma TypedItemsCons(elem: Type, v: Value, vs: seq<Value>)
    requires HasType(elem, v) && Transportable(v) && TypedItems(elem, vs)
    ensures TypedItems(elem, [v] + vs)
  {}

  lemma {:induction false} DecodedItemsAreTyped(elem: Type, count: nat, buf: seq<byte>)
    requires ValidType(elem)
    ensures var r := DecodeItems(elem, count, buf); r.Ok? ==> TypedItems(elem, r.value)
    decreases elem, 2, count
  {
    if count > 0 {
      DecodedIsTyped(elem, buf);
      var r := Decode(elem, buf);
      if r.Ok? {
        DecodedItemsAreTyped(elem, count - 1, buf[r.used..]);
        var later := DecodeItems(elem, count - 1, buf[r.used..]);
        if later.Ok? { TypedItemsCons(elem, r.value, later.value); }
      }
    }
  }

  /** The round trip, with the exact condition on the value: it holds when no pointer to a
      nested struct is nil and every length fits the protocol's 32-bit size, and only then. */
  lemma {:induction false} RoundTripExactly(t: Type, v: Value, rest: seq<byte>)
    requires ValidType(t) && HasType(t, v)
    ensures Transportable(v) <==> Decode(t, Encode(t, v) + rest) == Ok(v, |Encode(t, v)|)
  {
    if Transportable(v) {
      RoundTrip(t, v, rest);
    }
    DecodedIsTyped(t, Encode(t, v) + rest);
  }

  /** A nil struct is written as a bare STOP, which the reader refuses as soon as the struct has
      a required field. */
  lemma NilStructIsRefused(t: Type, rest: seq<byte>)
    requires t.Struct? && exists i :: 0 <= i < |t.fields| && t.fields[i].required
    ensures HasType(t, VNil) && Encode(t, VNil) == [STOP]
    ensures var r := Decode(t, Encode(t, VNil) + rest); r.Err? && r.error.MissingRequired?
  {
    var i :| 0 <= i < |t.fields| && t.fields[i].required;
    assert EmptySlots(t.fields)[i].Unset?;
    assert ReadFieldBegin([STOP] + rest) == Ok(End, 1);
  }

  /** A bool is true for the byte 1 and false for every other. */
  lemma BoolByte(b: byte, rest: seq<byte>)
    ensures Decode(Bool, [b] + rest) == Ok(VBool(b == 1), 1)
  {}

  /** Reading any accepted message, writing the result and reading that again changes nothing,
      although the first message may hold skipped fields, repeated fields or another order. */
  lemma {:induction false} RewritingIsFaithful(t: Type, buf: seq<byte>, rest: seq<byte>)
    requires ValidType(t) && Decode(t, buf).Ok?
    ensures var v := Decode(t, buf).value;
      HasType(t, v) && Decode(t, Encode(t, v) + rest) == Ok(v, |Encode(t, v)|)
  {
    DecodedIsTyped(t, buf);
    RoundTrip(t, Decode(t, buf).value, rest);
  }

  // ---------------------------------------------------------------------------------------
  // Encodings delimit themselves
  // ---------------------------------------------------------------------------------------

  /** Cutting any accepted message short of the bytes the reader used makes the reader report a
      truncated buffer, and no other error. */
  lemma {:induction false} CutMessageIsTruncated(t: Type, buf: seq<byte>, n: nat)
    requires Decode(t, buf).Ok? && n < Decode(t, buf).used
    ensures Decode(t, buf[..n]) == Err(Truncated)
  {
    DecodeStable(t, buf[..n], buf[n..]);
    assert buf[..n] + buf[n..] == buf;
  }

  lemma {:induction false} CutEncodingIsTruncated(t: Type, v: Value, n: nat)
    requires ValidType(t) && HasType(t, v) && Transportable(v) && n < |Encode(t, v)|
    ensures Decode(t, Encode(t, v)[..n]) == Err(Truncated)
  {
    RoundTrip(t, v, []);
    assert Encode(t, v) + [] == Encode(t, v);
    CutMessageIsTruncated(t, Encode(t, v), n);
  }

  /** No encoding is a prefix of the encoding of another value of the same type. */
  lemma {:induction false} EncodingsArePrefixFree(t: Type, v: Value, w: Value)
    requires ValidType(t)
    requires HasType(t, v) && Transportable(v) && HasType(t, w) && Transportable(w)
    requires Encode(t, v) <= Encode(t, w)
    ensures v == w
  {
    var tail := Encode(t, w)[|Encode(t, v)|..];
    assert Encode(t, v) + tail == Encode(t, w) + [];
    RoundTrip(t, v, tail);
    RoundTrip(t, w, []);
  }

  // ---------------------------------------------------------------------------------------
  // Encodings as messages
  // ---------------------------------------------------------------------------------------

  /** The fields of an encoding, in the order in which they are written. */
  ghost function WireFields(t: Type, v: Value, k: nat): seq<WireField>
    requires t.Struct? && HasType(t, v) && v.VStruct? && k <= |t.order|
    decreases |t.order| - k
  {
    if k == |t.order| then []
    else if v.slots[t.order[k]].Unset? then WireFields(t, v, k + 1)
    else [WireOf(t, v, t.order[k])] + WireFields(t, v, k + 1)
  }

  lemma {:induction false} EncodingIsMessage(t: Type, v: Value, k: nat)
    requires t.Struct? && ValidType(t) && HasType(t, v) && v.VStruct? && Transportable(v) && k <= |t.order|
    ensures RawAll(WireFields(t, v, k)) == EncodeFields(t, v, k)
    ensures AllAccepted(t.fields, WireFields(t, v, k))
    ensures forall j :: 0 <= j < |WireFields(t, v, k)| ==>
      exists i :: 0 <= i < |t.fields| && v.slots[i].Set? && WireFields(t, v, k)[j] == WireOf(t, v, i)
    decreases |t.order| - k
  {
    if k < |t.order| {
      EncodingIsMessage(t, v, k + 1);
      var i := t.order[k];
      if v.slots[i].Set? {
        WireOfAccepted(t, v, i);
        var ws := WireFields(t, v, k);
        assert ws[0] == WireOf(t, v, i) && ws[1..] == WireFields(t, v, k + 1);
      }
    }
  }

  lemma {:induction false} EncodingFillsEachSlotOnce(t: Type, v: Value)
    requires t.Struct? && ValidType(t) && HasType(t, v) && v.VStruct? && Transportable(v)
    ensures OneFieldPerSlot(t.fields, WireFields(t, v, 0))
  {
    EncodingIsMessage(t, v, 0);
    var ws := WireFields(t, v, 0);
    forall i, j, k |
      0 <= i < |t.fields| && 0 <= j < |ws| && 0 <= k < |ws| && Fills(t.fields, ws[j], i) && Fills(t.fields, ws[k], i)
      ensures ws[j] == ws[k]
    {
      var a :| 0 <= a < |t.fields| && v.slots[a].Set? && ws[j] == WireOf(t, v, a);
      var b :| 0 <= b < |t.fields| && v.slots[b].Set? && ws[k] == WireOf(t, v, b);
      WireOfAccepted(t, v, a);
      WireOfAccepted(t, v, b);
    }
  }

  /** A reader of this schema gets the written value from any message that carries the written
      fields as they are: other writers may order them differently, repeat them, and add fields
      that this reader does not know or whose type it does not expect. */
  lemma {:induction false} ReorderedMessageReadsTheSame(t: Type, v: Value, us: seq<WireField>, rest: seq<byte>)
    requires t.Struct? && ValidType(t) && HasType(t, v) && v.VStruct? && Transportable(v)
    requires AllAccepted(t.fields, us) && SameWantedFields(t.fields, WireFields(t, v, 0), us)
    ensures Decode(t, Message(us) + rest) == Ok(v, |Message(us)|)
  {
    var ws := WireFields(t, v, 0);
    EncodingIsMessage(t, v, 0);
    EncodingFillsEachSlotOnce(t, v);
    assert Encode(t, v) == Message(ws);
    RoundTrip(t, v, rest);
    WantedFieldsDecide(t, ws, us, rest);
  }
}

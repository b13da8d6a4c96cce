/** Messages as sequences of fields on the wire: what the reader makes of any field sequence,
    whether this writer produced it or a newer one. */
module ThriftMessages {
  import opened ThriftPrimitives
  import opened ThriftCodec

  // ---------------------------------------------------------------------------------------
  // The reader's answer does not depend on bytes behind the ones it looked at
  // ---------------------------------------------------------------------------------------

  lemma {:induction false} DecodeStable(t: Type, buf: seq<byte>, more: seq<byte>)
    ensures Stable(Decode(t, buf), Decode(t, buf + more))
    decreases t, 1
  {
    match t
    case Bool =>
    case Int32 => ReadIntStable(buf, 4, more);
    case Int64 => ReadIntStable(buf, 8, more);
    case String => ReadStringStable(buf, more);
    case Struct(fields, order) => DecodeFieldsStable(t, buf, EmptySlots(fields), more);
    case List(elem) =>
      ReadListBeginStable(buf, more);
      if ReadListBegin(buf).Ok? {
        DropAppend(buf, 5, more);
        DecodeItemsStable(elem, ReadListBegin(buf).value.size, buf[5..], more);
      }
  }

  lemma {:induction false} DecodeFieldsStable(t: Type, buf: seq<byte>, slots: seq<Slot>, more: seq<byte>)
    requires t.Struct? && |slots| == |t.fields|
    ensures Stable(DecodeFields(t, buf, slots), DecodeFields(t, buf + more, slots))
    decreases t, 0, |buf|
  {
    ReadFieldBeginStable(buf, more);
    var h := ReadFieldBegin(buf);
    if h.Ok? && h.value.Begin? {
      var Begin(code, id) := h.value;
      DropAppend(buf, 3, more);
      if Wanted(t.fields, code, id) {
        var i := Find(t.fields, id);
        DecodeStable(t.fields[i].typ, buf[3..], more);
        var r := Decode(t.fields[i].typ, buf[3..]);
        if r.Ok? {
          DropAppend(buf, 3 + r.used, more);
          DecodeFieldsStable(t, buf[3 + r.used..], slots[i := Set(r.value)], more);
        }
      } else {
        SkipStable(code, buf[3..], more);
        var s := Skip(code, buf[3..]);
        if s.Ok? {
          DropAppend(buf, 3 + s.used, more);
          DecodeFieldsStable(t, buf[3 + s.used..], slots, more);
        }
      }
    }
  }

  lemma {:induction false} DecodeItemsStable(elem: Type, count: nat, buf: seq<byte>, more: seq<byte>)
    ensures Stable(DecodeItems(elem, count, buf), DecodeItems(elem, count, buf + more))
    decreases elem, 2, count
  {
    if count > 0 {
      DecodeStable(elem, buf, more);
      var r := Decode(elem, buf);
      if r.Ok? {
        DropAppend(buf, r.used, more);
        DecodeItemsStable(elem, count - 1, buf[r.used..], more);
      }
    }
  }

  // ---------------------------------------------------------------------------------------
  // One field on the wire
  // ---------------------------------------------------------------------------------------

  datatype WireField = WireField(code: byte, id: int, payload: seq<byte>)

  function Raw(f: WireField): seq<byte> {
    WriteFieldBegin(f.code, f.id) + f.payload
  }

  /** A field the reader takes must hold a value of the schema's type; any other field only has
      to be skippable. */
  ghost predicate Accepted(fields: seq<Field>, f: WireField) {
    && f.code != STOP
    && IdFits(f.id)
    && if Wanted(fields, f.code, f.id) then
         var r := Decode(fields[Find(fields, f.id)].typ, f.payload);
         r.Ok? && r.used == |f.payload|
       else
         Skip(f.code, f.payload) == Ok((), |f.payload|)
  }

  /** The slots after one field has been read. */
  ghost function Put(fields: seq<Field>, slots: seq<Slot>, f: WireField): (r: seq<Slot>)
    requires |slots| == |fields| && Accepted(fields, f)
    ensures |r| == |fields|
  {
    if Wanted(fields, f.code, f.id) then
      var i := Find(fields, f.id);
      slots[i := Set(Decode(fields[i].typ, f.payload).value)]
    else slots
  }

  lemma {:induction false} ReadOne(t: Type, f: WireField, slots: seq<Slot>, tail: seq<byte>)
    requires t.Struct? && |slots| == |t.fields| && Accepted(t.fields, f)
    ensures DecodeFields(t, Raw(f) + tail, slots)
         == Advance(DecodeFields(t, tail, Put(t.fields, slots, f)), |Raw(f)|)
  {
    var buf := Raw(f) + tail;
    assert buf == WriteFieldBegin(f.code, f.id) + (f.payload + tail);
    FieldBeginRoundTrip(f.code, f.id, f.payload + tail);
    assert buf[3..] == f.payload + tail;
    assert buf[3 + |f.payload|..] == tail;
    if Wanted(t.fields, f.code, f.id) {
      DecodeStable(t.fields[Find(t.fields, f.id)].typ, f.payload, tail);
    } else {
      SkipStable(f.code, f.payload, tail);
    }
  }

  // ---------------------------------------------------------------------------------------
  // Field sequences
  // ---------------------------------------------------------------------------------------

  function RawAll(ws: seq<WireField>): seq<byte> {
    if ws == [] then [] else Raw(ws[0]) + RawAll(ws[1..])
  }

  /** A struct on the wire: its fields and the STOP byte. */
  function Message(ws: seq<WireField>): seq<byte> {
    RawAll(ws) + [STOP]
  }

  ghost predicate AllAccepted(fields: seq<Field>, ws: seq<WireField>) {
    forall k :: 0 <= k < |ws| ==> Accepted(fields, ws[k])
  }

  ghost function Absorb(fields: seq<Field>, slots: seq<Slot>, ws: seq<WireField>): (r: seq<Slot>)
    requires |slots| == |fields| && AllAccepted(fields, ws)
    ensures |r| == |fields|
    decreases |ws|
  {
    if ws == [] then slots else Absorb(fields, Put(fields, slots, ws[0]), ws[1..])
  }

  lemma {:induction false} ReadSequence(t: Type, ws: seq<WireField>, slots: seq<Slot>, rest: seq<byte>)
    requires t.Struct? && |slots| == |t.fields| && AllAccepted(t.fields, ws)
    ensures DecodeFields(t, Message(ws) + rest, slots)
         == Finish(t.fields, Absorb(t.fields, slots, ws), |Message(ws)|)
    decreases |ws|
  {
    if ws == [] {
      assert (Message(ws) + rest)[0] == STOP;
    } else {
      assert Message(ws) + rest == Raw(ws[0]) + (Message(ws[1..]) + rest);
      ReadOne(t, ws[0], slots, Message(ws[1..]) + rest);
      ReadSequence(t, ws[1..], Put(t.fields, slots, ws[0]), rest);
    }
  }

  /** Field `f` is read into slot `i`. */
  predicate Fills(fields: seq<Field>, f: WireField, i: nat) {
    Wanted(fields, f.code, f.id) && Find(fields, f.id) == i
  }

  /** The last field of the message that is read into slot `i`, if there is one. */
  function LastFill(fields: seq<Field>, ws: seq<WireField>, i: nat): (k: int)
    ensures -1 <= k < |ws|
    ensures k >= 0 ==> Fills(fields, ws[k], i)
    ensures forall j :: k < j < |ws| ==> !Fills(fields, ws[j], i)
    decreases |ws|
  {
    if ws == [] then -1
    else
      var k := LastFill(fields, ws[1..], i);
      if k >= 0 then k + 1
      else if Fills(fields, ws[0], i) then 0
      else -1
  }

  /** What a slot holds once a message has been read. */
  ghost function SlotAfter(fields: seq<Field>, slots: seq<Slot>, ws: seq<WireField>, i: nat): Slot
    requires |slots| == |fields| && i < |fields|
  {
    var k := LastFill(fields, ws, i);
    if k < 0 then slots[i]
    else
      match Decode(fields[i].typ, ws[k].payload)
      case Ok(v, _) => Set(v)
      case Err(_) => Unset
  }

  lemma {:induction false} LastOccurrenceWins(fields: seq<Field>, slots: seq<Slot>, ws: seq<WireField>, i: nat)
    requires |slots| == |fields| && AllAccepted(fields, ws) && i < |fields|
    ensures Absorb(fields, slots, ws)[i] == SlotAfter(fields, slots, ws, i)
    decreases |ws|
  {
    if ws == [] {
    } else {
      LastOccurrenceWins(fields, Put(fields, slots, ws[0]), ws[1..], i);
      var k := LastFill(fields, ws[1..], i);
      if k < 0 {
        assert Accepted(fields, ws[0]);
      } else {
        assert ws[1..][k] == ws[k + 1];
      }
    }
  }

  /** Reading a message of acceptable fields into a fresh struct succeeds exactly when every
      required field occurs with the type of the schema; each field then holds its last
      occurrence, and exactly the message has been used. */
  lemma {:induction false} MessageIsReadExactly(t: Type, ws: seq<WireField>, rest: seq<byte>)
    requires t.Struct? && AllAccepted(t.fields, ws)
    ensures var r := Decode(t, Message(ws) + rest);
      && (r.Ok? <==> forall i :: 0 <= i < |t.fields| && t.fields[i].required ==> LastFill(t.fields, ws, i) >= 0)
      && (r.Ok? ==> && r.used == |Message(ws)|
                    && r.value.VStruct? && |r.value.slots| == |t.fields|
                    && forall i :: 0 <= i < |t.fields| ==>
                         r.value.slots[i] == SlotAfter(t.fields, EmptySlots(t.fields), ws, i))
      && (r.Err? ==> r.error.MissingRequired?)
  {
    var empty := EmptySlots(t.fields);
    ReadSequence(t, ws, empty, rest);
    var slots := Absorb(t.fields, empty, ws);
    forall i | 0 <= i < |t.fields|
      ensures slots[i] == SlotAfter(t.fields, empty, ws, i)
      ensures slots[i].Set? <==> LastFill(t.fields, ws, i) >= 0
    {
      LastOccurrenceWins(t.fields, empty, ws, i);
      var k := LastFill(t.fields, ws, i);
      if k >= 0 {
        assert Accepted(t.fields, ws[k]);
      }
    }
  }

  // ---------------------------------------------------------------------------------------
  // Forward compatibility
  // ---------------------------------------------------------------------------------------

  lemma {:induction false} InsertedIsAccepted(fields: seq<Field>, ws: seq<WireField>, k: nat, f: WireField)
    requires AllAccepted(fields, ws) && k <= |ws| && Accepted(fields, f)
    ensures AllAccepted(fields, ws[..k] + [f] + ws[k..])
  {
    var longer := ws[..k] + [f] + ws[k..];
    forall j | 0 <= j < |longer| ensures Accepted(fields, longer[j]) {
      if j < k { assert longer[j] == ws[j]; }
      else if j > k { assert longer[j] == ws[j - 1]; }
    }
  }

  lemma {:induction false} AbsorbInserted(
    fields: seq<Field>, slots: seq<Slot>, ws: seq<WireField>, k: nat, f: WireField)
    requires |slots| == |fields| && AllAccepted(fields, ws) && k <= |ws|
    requires Accepted(fields, f) && !Wanted(fields, f.code, f.id)
    ensures AllAccepted(fields, ws[..k] + [f] + ws[k..])
    ensures Absorb(fields, slots, ws[..k] + [f] + ws[k..]) == Absorb(fields, slots, ws)
    decreases k
  {
    var longer := ws[..k] + [f] + ws[k..];
    InsertedIsAccepted(fields, ws, k, f);
    if k == 0 {
      assert longer[1..] == ws;
    } else {
      assert longer[1..] == ws[1..][..k - 1] + [f] + ws[1..][k - 1..];
      AbsorbInserted(fields, Put(fields, slots, ws[0]), ws[1..], k - 1, f);
    }
  }

  lemma {:induction false} RawInserted(ws: seq<WireField>, k: nat, f: WireField)
    requires k <= |ws|
    ensures |RawAll(ws[..k] + [f] + ws[k..])| == |RawAll(ws)| + |Raw(f)|
    decreases k
  {
    var longer := ws[..k] + [f] + ws[k..];
    if k == 0 {
      assert longer[1..] == ws;
    } else {
      assert longer[1..] == ws[1..][..k - 1] + [f] + ws[1..][k - 1..];
      RawInserted(ws[1..], k - 1, f);
    }
  }

  /** A field with an unknown id, or with a known id and another type, changes nothing wherever
      it stands: neither the value nor the error, only the number of bytes used. */
  lemma {:induction false} UnwantedFieldIsIgnored(t: Type, ws: seq<WireField>, k: nat, f: WireField, rest: seq<byte>)
    requires t.Struct? && AllAccepted(t.fields, ws) && k <= |ws|
    requires Accepted(t.fields, f) && !Wanted(t.fields, f.code, f.id)
    ensures Decode(t, Message(ws[..k] + [f] + ws[k..]) + rest)
         == Advance(Decode(t, Message(ws) + rest), |Raw(f)|)
  {
    AbsorbInserted(t.fields, EmptySlots(t.fields), ws, k, f);
    RawInserted(ws, k, f);
    SameButLonger(t, ws, ws[..k] + [f] + ws[k..], |Raw(f)|, rest);
  }

  lemma {:induction false} SameButLonger(
    t: Type, ws: seq<WireField>, longer: seq<WireField>, more: nat, rest: seq<byte>)
    requires t.Struct? && AllAccepted(t.fields, ws) && AllAccepted(t.fields, longer)
    requires Absorb(t.fields, EmptySlots(t.fields), longer) == Absorb(t.fields, EmptySlots(t.fields), ws)
    requires |RawAll(longer)| == |RawAll(ws)| + more
    ensures Decode(t, Message(longer) + rest) == Advance(Decode(t, Message(ws) + rest), more)
  {
    var empty := EmptySlots(t.fields);
    ReadSequence(t, ws, empty, rest);
    ReadSequence(t, longer, empty, rest);
    FinishLater(t.fields, Absorb(t.fields, empty, ws), |Message(ws)|, more);
  }

  lemma FinishLater(fields: seq<Field>, slots: seq<Slot>, used: nat, more: nat)
    requires |slots| == |fields|
    ensures Finish(fields, slots, used + more) == Advance(Finish(fields, slots, used), more)
  {}

  /** No two different fields of the message are read into the same slot. */
  ghost predicate OneFieldPerSlot(fields: seq<Field>, ws: seq<WireField>) {
    forall i, j, k |
      0 <= i < |fields| && 0 <= j < |ws| && 0 <= k < |ws| && Fills(fields, ws[j], i) && Fills(fields, ws[k], i)
      :: ws[j] == ws[k]
  }

  /** The two messages carry the same wanted fields, in any order, each any number of times,
      and among any other fields. */
  ghost predicate SameWantedFields(fields: seq<Field>, ws: seq<WireField>, us: seq<WireField>) {
    forall f: WireField :: Wanted(fields, f.code, f.id) ==> (f in ws <==> f in us)
  }

  lemma {:induction false} WantedFieldsDecide(t: Type, ws: seq<WireField>, us: seq<WireField>, rest: seq<byte>)
    requires t.Struct? && AllAccepted(t.fields, ws) && AllAccepted(t.fields, us)
    requires OneFieldPerSlot(t.fields, ws) && SameWantedFields(t.fields, ws, us)
    ensures Decode(t, Message(us) + rest)
         == match Decode(t, Message(ws) + rest)
            case Ok(v, _) => Ok(v, |Message(us)|)
            case Err(e) => Err(e)
  {
    var empty := EmptySlots(t.fields);
    ReadSequence(t, ws, empty, rest);
    ReadSequence(t, us, empty, rest);
    WantedFieldsFillAlike(t.fields, empty, ws, us);
  }

  lemma {:induction false} WantedFieldsFillAlike(
    fields: seq<Field>, slots: seq<Slot>, ws: seq<WireField>, us: seq<WireField>)
    requires |slots| == |fields| && AllAccepted(fields, ws) && AllAccepted(fields, us)
    requires OneFieldPerSlot(fields, ws) && SameWantedFields(fields, ws, us)
    ensures Absorb(fields, slots, ws) == Absorb(fields, slots, us)
  {
    var a, b := Absorb(fields, slots, ws), Absorb(fields, slots, us);
    forall i | 0 <= i < |fields| ensures a[i] == b[i] {
      LastOccurrenceWins(fields, slots, ws, i);
      LastOccurrenceWins(fields, slots, us, i);
      SameLastFill(fields, ws, us, i);
    }
  }

  lemma {:induction false} SameLastFill(fields: seq<Field>, ws: seq<WireField>, us: seq<WireField>, i: nat)
    requires i < |fields| && OneFieldPerSlot(fields, ws) && SameWantedFields(fields, ws, us)
    ensures var j, k := LastFill(fields, ws, i), LastFill(fields, us, i);
      (j < 0 <==> k < 0) && (j >= 0 && k >= 0 ==> ws[j] == us[k])
  {
    var j, k := LastFill(fields, ws, i), LastFill(fields, us, i);
    if k >= 0 {
      assert us[k] in us;
      var m :| 0 <= m < |ws| && ws[m] == us[k];
    }
    if j >= 0 {
      assert ws[j] in ws;
      var m :| 0 <= m < |us| && us[m] == ws[j];
    }
  }
}

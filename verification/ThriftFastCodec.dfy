/** The codec as it runs: a length pass, a writer that fills a buffer in place and goes back to
    patch list headers, and a reader that advances an offset field by field. */
module ThriftFastCodec {
  import opened ThriftPrimitives
  import opened ThriftCodec

  // ---------------------------------------------------------------------------------------
  // Adding up in another order
  // ---------------------------------------------------------------------------------------

  ghost function Sum(w: seq<nat>, n: nat): nat
    requires n <= |w|
  {
    if n == 0 then 0 else Sum(w, n - 1) + w[n - 1]
  }

  ghost function SumAlong(w: seq<nat>, order: seq<nat>): nat
    requires forall k :: 0 <= k < |order| ==> order[k] < |w|
  {
    if order == [] then 0 else w[order[0]] + SumAlong(w, order[1..])
  }

  lemma {:induction false} SumAlongRemove(w: seq<nat>, order: seq<nat>, k: nat)
    requires k < |order| && forall j :: 0 <= j < |order| ==> order[j] < |w|
    ensures SumAlong(w, order) == w[order[k]] + SumAlong(w, order[..k] + order[k + 1..])
  {
    var shorter := order[..k] + order[k + 1..];
    if k == 0 {
      assert shorter == order[1..];
    } else {
      SumAlongRemove(w, order[1..], k - 1);
      assert shorter[1..] == order[1..][..k - 1] + order[1..][k..];
    }
  }

  lemma RemoveLargest(order: seq<nat>, n: nat, k: nat)
    requires n > 0 && IsOrder(order, n) && k < n && order[k] == n - 1
    ensures IsOrder(order[..k] + order[k + 1..], n - 1)
  {
    var shorter := order[..k] + order[k + 1..];
    forall i | 0 <= i < n - 1 ensures i in shorter {
      assert i in order;
      var j :| 0 <= j < n && order[j] == i;
      assert shorter[if j < k then j else j - 1] == i;
    }
    forall j | 0 <= j < n - 1 ensures shorter[j] < n - 1 {
      assert shorter[j] == order[if j < k then j else j + 1];
    }
  }

  lemma {:induction false} SumAlongOrder(w: seq<nat>, order: seq<nat>, n: nat)
    requires n <= |w| && IsOrder(order, n)
    ensures SumAlong(w, order) == Sum(w, n)
  {
    if n == 0 {
    } else {
      assert n - 1 in order;
      var k :| 0 <= k < n && order[k] == n - 1;
      RemoveLargest(order, n, k);
      SumAlongRemove(w, order, k);
      SumAlongOrder(w, order[..k] + order[k + 1..], n - 1);
    }
  }

  ghost function Widths(t: Type, v: Value): (w: seq<nat>)
    requires t.Struct? && HasType(t, v) && v.VStruct?
    ensures |w| == |t.fields| && forall i :: 0 <= i < |w| ==> w[i] == |EncodeField(t, v, i)|
  {
    seq(|t.fields|, i requires 0 <= i < |t.fields| => |EncodeField(t, v, i)|)
  }

  lemma {:induction false} WidthOfFields(t: Type, v: Value, k: nat)
    requires t.Struct? && HasType(t, v) && v.VStruct? && k <= |t.order|
    ensures |EncodeFields(t, v, k)| == SumAlong(Widths(t, v), t.order[k..])
    decreases |t.order| - k
  {
    if k < |t.order| {
      WidthOfFields(t, v, k + 1);
      assert t.order[k..][1..] == t.order[k + 1..];
    }
  }

  /** The length added up in id order is the length of the fields in writing order. */
  lemma LengthInIdOrder(t: Type, v: Value)
    requires t.Struct? && HasType(t, v) && v.VStruct?
    ensures |EncodeFields(t, v, 0)| == Sum(Widths(t, v), |t.fields|)
  {
    WidthOfFields(t, v, 0);
    assert t.order[0..] == t.order;
    SumAlongOrder(Widths(t, v), t.order, |t.fields|);
  }

  /** The items in front of index `n`, as the loops over a list produce them. */
  ghost function ItemsBefore(elem: Type, items: seq<Value>, n: nat): seq<byte>
    requires ItemsHaveType(elem, items) && n <= |items|
  {
    if n == 0 then [] else ItemsBefore(elem, items, n - 1) + Encode(elem, items[n - 1])
  }

  lemma {:induction false} ItemsSuffix(elem: Type, items: seq<Value>, n: nat)
    requires ItemsHaveType(elem, items) && n <= |items|
    ensures ItemsHaveType(elem, items[n..])
    ensures ItemsBefore(elem, items, n) + EncodeItems(elem, items[n..]) == EncodeItems(elem, items)
  {
    if n == 0 {
      assert items[0..] == items;
    } else {
      ItemsSuffix(elem, items, n - 1);
      SuffixHasType(elem, items, n);
      ItemThenRest(elem, items, n - 1);
      var before, item := ItemsBefore(elem, items, n - 1), Encode(elem, items[n - 1]);
      var rest := EncodeItems(elem, items[n..]);
      assert (before + item) + rest == before + (item + rest);
    }
  }

  lemma SuffixHasType(elem: Type, items: seq<Value>, n: nat)
    requires ItemsHaveType(elem, items) && n <= |items|
    ensures ItemsHaveType(elem, items[n..])
  {}

  lemma {:induction false} ItemThenRest(elem: Type, items: seq<Value>, n: nat)
    requires ItemsHaveType(elem, items) && n < |items|
    requires ItemsHaveType(elem, items[n..]) && ItemsHaveType(elem, items[n + 1..])
    ensures EncodeItems(elem, items[n..]) == Encode(elem, items[n]) + EncodeItems(elem, items[n + 1..])
  {
    assert items[n..] == [items[n]] + items[n + 1..];
    EncodeItemsCons(elem, items[n], items[n + 1..]);
  }

  lemma {:induction false} AllItems(elem: Type, items: seq<Value>)
    requires ItemsHaveType(elem, items)
    ensures ItemsBefore(elem, items, |items|) == EncodeItems(elem, items)
  {
    ItemsSuffix(elem, items, |items|);
  }

  // ---------------------------------------------------------------------------------------
  // Length
  // ---------------------------------------------------------------------------------------

  method BLength(t: Type, v: Value) returns (l: nat)
    requires HasType(t, v)
    ensures l == |Encode(t, v)|
    decreases t, 1
  {
    match t
    case Bool => l := 1;
    case Int32 => l := 4;
    case Int64 => l := 8;
    case String => l := 4 + |v.s|;
    case Struct(_, _) =>
      l := 0;
      if v != VNil {
        l := FieldsLength(t, v);
      }
      l := l + 1;
    case List(elem) =>
      l := ItemsLength(elem, v.items);
      l := 5 + l;
  }

  method FieldsLength(t: Type, v: Value) returns (l: nat)
    requires t.Struct? && HasType(t, v) && v.VStruct?
    ensures l == |EncodeFields(t, v, 0)|
    decreases t, 0
  {
    l := 0;
    var i := 0;
    while i < |t.fields|
      invariant 0 <= i <= |t.fields|
      invariant l == Sum(Widths(t, v), i)
    {
      if v.slots[i].Set? {
        var m := BLength(t.fields[i].typ, v.slots[i].value);
        l := l + 3 + m;
      }
      i := i + 1;
    }
    LengthInIdOrder(t, v);
  }

  method ItemsLength(elem: Type, items: seq<Value>) returns (l: nat)
    requires ItemsHaveType(elem, items)
    ensures l == |EncodeItems(elem, items)|
    decreases elem, 2
  {
    l := 0;
    var i := 0;
    while i < |items|
      invariant 0 <= i <= |items|
      invariant l == |ItemsBefore(elem, items, i)|
    {
      var m := BLength(elem, items[i]);
      l := l + m;
      i := i + 1;
    }
    AllItems(elem, items);
  }

  // ---------------------------------------------------------------------------------------
  // Writing in place
  // ---------------------------------------------------------------------------------------

  /** Buffer `after` is `before` with `s` written at `off`, and nothing else touched. */
  ghost predicate Written(before: seq<byte>, after: seq<byte>, off: nat, s: seq<byte>) {
    off + |s| <= |before| && after == before[..off] + s + before[off + |s|..]
  }

  lemma WrittenTwice(a: seq<byte>, b: seq<byte>, c: seq<byte>, off: nat, s: seq<byte>, u: seq<byte>)
    requires Written(a, b, off, s) && Written(b, c, off + |s|, u)
    ensures Written(a, c, off, s + u)
  {
    var end := off + |s|;
    assert b[..end] == a[..off] + s;
    assert b[end + |u|..] == a[end + |u|..];
  }

  /** Writing a header into the gap that was left in front of the items. */
  lemma PatchedHeader(a: seq<byte>, b: seq<byte>, c: seq<byte>, off: nat, h: seq<byte>, items: seq<byte>)
    requires Written(a, b, off + |h|, items) && Written(b, c, off, h)
    ensures Written(a, c, off, h + items)
  {
    var gap := off + |h|;
    assert b[..off] == a[..off];
    assert b[gap..] == items + a[gap + |items|..];
  }

  method PutBytes(buf: array<byte>, off: nat, s: seq<byte>) returns (n: nat)
    requires off + |s| <= buf.Length
    modifies buf
    ensures n == |s| && Written(old(buf[..]), buf[..], off, s)
  {
    n := 0;
    while n < |s|
      invariant 0 <= n <= |s|
      invariant forall j :: 0 <= j < n ==> buf[off + j] == s[j]
      invariant forall j :: 0 <= j < buf.Length && !(off <= j < off + n) ==> buf[j] == old(buf[j])
    {
      buf[off + n] := s[n];
      n := n + 1;
    }
    assert buf[..] == old(buf[..])[..off] + s + old(buf[..])[off + |s|..];
  }

  method FastWrite(t: Type, v: Value, buf: array<byte>, off: nat) returns (n: nat)
    requires HasType(t, v) && off + |Encode(t, v)| <= buf.Length
    modifies buf
    ensures n == |Encode(t, v)| && Written(old(buf[..]), buf[..], off, Encode(t, v))
    decreases t, 2
  {
    match t
    case Bool => n := PutBytes(buf, off, WriteBool(v.b));
    case Int32 => n := PutBytes(buf, off, WriteInt(v.n, 4));
    case Int64 => n := PutBytes(buf, off, WriteInt(v.n, 8));
    case String => n := PutBytes(buf, off, WriteString(v.s));
    case Struct(_, _) => n := WriteStruct(t, v, buf, off);
    case List(_) => n := WriteList(t, v, buf, off);
  }

  method WriteStruct(t: Type, v: Value, buf: array<byte>, off: nat) returns (n: nat)
    requires t.Struct? && HasType(t, v) && off + |Encode(t, v)| <= buf.Length
    modifies buf
    ensures n == |Encode(t, v)| && Written(old(buf[..]), buf[..], off, Encode(t, v))
    decreases t, 1
  {
    n := 0;
    if v != VNil {
      n := WriteFields(t, v, buf, off);
    }
    ghost var mid := buf[..];
    var m := PutBytes(buf, off + n, [STOP]);
    if v != VNil {
      WrittenTwice(old(buf[..]), mid, buf[..], off, EncodeFields(t, v, 0), [STOP]);
    }
    n := n + m;
  }

  /** The elements are written behind a gap, and the header into the gap afterwards. */
  method WriteList(t: Type, v: Value, buf: array<byte>, off: nat) returns (n: nat)
    requires t.List? && HasType(t, v) && off + |Encode(t, v)| <= buf.Length
    modifies buf
    ensures n == |Encode(t, v)| && Written(old(buf[..]), buf[..], off, Encode(t, v))
    decreases t, 1
  {
    var m := WriteItems(t.elem, v.items, buf, off + 5);
    ghost var mid := buf[..];
    var h := PutBytes(buf, off, WriteListBegin(Code(t.elem), |v.items|));
    PatchedHeader(old(buf[..]), mid, buf[..], off,
                  WriteListBegin(Code(t.elem), |v.items|), EncodeItems(t.elem, v.items));
    n := h + m;
  }

  lemma {:induction false} FieldsSuffix(t: Type, v: Value, k: nat)
    requires t.Struct? && HasType(t, v) && v.VStruct? && k <= |t.order|
    ensures FieldsBefore(t, v, k) + EncodeFields(t, v, k) == EncodeFields(t, v, 0)
  {
    if k > 0 {
      FieldsSuffix(t, v, k - 1);
      assert EncodeFields(t, v, k - 1) == EncodeField(t, v, t.order[k - 1]) + EncodeFields(t, v, k);
    }
  }

  ghost function FieldsBefore(t: Type, v: Value, k: nat): seq<byte>
    requires t.Struct? && HasType(t, v) && v.VStruct? && k <= |t.order|
  {
    if k == 0 then [] else FieldsBefore(t, v, k - 1) + EncodeField(t, v, t.order[k - 1])
  }

  lemma RoomForField(t: Type, v: Value, k: nat)
    requires t.Struct? && HasType(t, v) && v.VStruct? && k < |t.order|
    ensures |FieldsBefore(t, v, k)| + |EncodeField(t, v, t.order[k])| <= |EncodeFields(t, v, 0)|
    ensures |FieldsBefore(t, v, k + 1)| == |FieldsBefore(t, v, k)| + |EncodeField(t, v, t.order[k])|
  {
    FieldsSuffix(t, v, k + 1);
  }

  lemma NextFieldWritten(a: seq<byte>, b: seq<byte>, c: seq<byte>, off: nat, t: Type, v: Value, k: nat)
    requires t.Struct? && HasType(t, v) && v.VStruct? && k < |t.order|
    requires Written(a, b, off, FieldsBefore(t, v, k))
    requires Written(b, c, off + |FieldsBefore(t, v, k)|, EncodeField(t, v, t.order[k]))
    ensures Written(a, c, off, FieldsBefore(t, v, k + 1))
  {
    WrittenTwice(a, b, c, off, FieldsBefore(t, v, k), EncodeField(t, v, t.order[k]));
  }

  method WriteFields(t: Type, v: Value, buf: array<byte>, off: nat) returns (n: nat)
    requires t.Struct? && HasType(t, v) && v.VStruct? && off + |EncodeFields(t, v, 0)| <= buf.Length
    modifies buf
    ensures n == |EncodeFields(t, v, 0)| && Written(old(buf[..]), buf[..], off, EncodeFields(t, v, 0))
    decreases t, 0, 2
  {
    n := 0;
    var k := 0;
    while k < |t.order|
      invariant 0 <= k <= |t.order|
      invariant n == |FieldsBefore(t, v, k)|
      invariant Written(old(buf[..]), buf[..], off, FieldsBefore(t, v, k))
    {
      n := WriteNextField(t, v, k, buf, off, n, old(buf[..]));
      k := k + 1;
    }
    FieldsSuffix(t, v, k);
  }

  /** One turn of the writer's loop over the writing order; `start` is the buffer before the loop. */
  method WriteNextField(t: Type, v: Value, k: nat, buf: array<byte>, off: nat, n: nat, ghost start: seq<byte>)
    returns (n': nat)
    requires t.Struct? && HasType(t, v) && v.VStruct? && k < |t.order|
    requires off + |EncodeFields(t, v, 0)| <= buf.Length && n == |FieldsBefore(t, v, k)|
    requires Written(start, buf[..], off, FieldsBefore(t, v, k))
    modifies buf
    ensures n' == |FieldsBefore(t, v, k + 1)| && Written(start, buf[..], off, FieldsBefore(t, v, k + 1))
    decreases t, 0, 1
  {
    RoomForField(t, v, k);
    assert off + n + |EncodeField(t, v, t.order[k])| <= buf.Length;
    ghost var mid := buf[..];
    var m := WriteField(t, v, t.order[k], buf, off + n);
    NextFieldWritten(start, mid, buf[..], off, t, v, k);
    n' := n + m;
  }

  method WriteField(t: Type, v: Value, i: nat, buf: array<byte>, off: nat) returns (n: nat)
    requires t.Struct? && HasType(t, v) && v.VStruct? && i < |t.fields|
    requires off + |EncodeField(t, v, i)| <= buf.Length
    modifies buf
    ensures n == |EncodeField(t, v, i)| && Written(old(buf[..]), buf[..], off, EncodeField(t, v, i))
    decreases t, 0, 0
  {
    n := 0;
    if v.slots[i].Set? {
      var typ := t.fields[i].typ;
      n := PutBytes(buf, off, WriteFieldBegin(Code(typ), t.fields[i].id));
      ghost var mid := buf[..];
      var m := FastWrite(t.fields[i].typ, v.slots[i].value, buf, off + n);
      WrittenTwice(old(buf[..]), mid, buf[..], off,
                   WriteFieldBegin(Code(typ), t.fields[i].id), Encode(typ, v.slots[i].value));
      n := n + m;
    }
  }

  lemma RoomForItem(elem: Type, items: seq<Value>, i: nat)
    requires ItemsHaveType(elem, items) && i < |items|
    ensures |ItemsBefore(elem, items, i + 1)| == |ItemsBefore(elem, items, i)| + |Encode(elem, items[i])|
    ensures |ItemsBefore(elem, items, i + 1)| <= |EncodeItems(elem, items)|
  {
    ItemsSuffix(elem, items, i + 1);
  }

  lemma NextItemWritten(a: seq<byte>, b: seq<byte>, c: seq<byte>, off: nat, elem: Type, items: seq<Value>, i: nat)
    requires ItemsHaveType(elem, items) && i < |items|
    requires Written(a, b, off, ItemsBefore(elem, items, i))
    requires Written(b, c, off + |ItemsBefore(elem, items, i)|, Encode(elem, items[i]))
    ensures Written(a, c, off, ItemsBefore(elem, items, i + 1))
  {
    WrittenTwice(a, b, c, off, ItemsBefore(elem, items, i), Encode(elem, items[i]));
  }

  method WriteItems(elem: Type, items: seq<Value>, buf: array<byte>, off: nat) returns (n: nat)
    requires ItemsHaveType(elem, items) && off + |EncodeItems(elem, items)| <= buf.Length
    modifies buf
    ensures n == |EncodeItems(elem, items)| && Written(old(buf[..]), buf[..], off, EncodeItems(elem, items))
    decreases elem, 4
  {
    n := 0;
    var i := 0;
    while i < |items|
      invariant 0 <= i <= |items|
      invariant n == |ItemsBefore(elem, items, i)|
      invariant Written(old(buf[..]), buf[..], off, ItemsBefore(elem, items, i))
    {
      n := WriteNextItem(elem, items, i, buf, off, n, old(buf[..]));
      i := i + 1;
    }
    AllItems(elem, items);
  }

  /** One turn of the writer's loop over a list; `start` is the buffer before the loop. */
  method WriteNextItem(
    elem: Type, items: seq<Value>, i: nat, buf: array<byte>, off: nat, n: nat, ghost start: seq<byte>)
    returns (n': nat)
    requires ItemsHaveType(elem, items) && i < |items|
    requires off + |EncodeItems(elem, items)| <= buf.Length && n == |ItemsBefore(elem, items, i)|
    requires Written(start, buf[..], off, ItemsBefore(elem, items, i))
    modifies buf
    ensures n' == |ItemsBefore(elem, items, i + 1)|
    ensures Written(start, buf[..], off, ItemsBefore(elem, items, i + 1))
    decreases elem, 3
  {
    RoomForItem(elem, items, i);
    ghost var mid := buf[..];
    var m := FastWrite(elem, items[i], buf, off + n);
    NextItemWritten(start, mid, buf[..], off, elem, items, i);
    n' := n + m;
  }

  // ---------------------------------------------------------------------------------------
  // Reading with an offset
  // ---------------------------------------------------------------------------------------

  /** `whole` is the outcome of a read that stands at `offset` with `slots` filled. */
  ghost predicate ReadSoFar(whole: Outcome<Value>, t: Type, buf: seq<byte>, offset: nat, slots: seq<Slot>)
    requires t.Struct?
  {
    && offset <= |buf|
    && |slots| == |t.fields|
    && whole == Advance(DecodeFields(t, buf[offset..], slots), offset)
  }

  lemma ReadFromStart(t: Type, buf: seq<byte>)
    requires t.Struct?
    ensures ReadSoFar(Decode(t, buf), t, buf, 0, EmptySlots(t.fields))
  {
    assert buf[0..] == buf;
  }

  lemma StopStep(whole: Outcome<Value>, t: Type, buf: seq<byte>, offset: nat, slots: seq<Slot>)
    requires t.Struct? && ReadSoFar(whole, t, buf, offset, slots)
    ensures var h := ReadFieldBegin(buf[offset..]);
      && (h.Err? ==> whole == Err(h.error))
      && (h.Ok? && h.value.End? ==> whole == Advance(Finish(t.fields, slots, 1), offset))
  {}

  /** One turn of the reader's loop, for a field that it takes. */
  lemma TakeStep(whole: Outcome<Value>, t: Type, buf: seq<byte>, offset: nat, slots: seq<Slot>, i: nat,
                 r: Outcome<Value>)
    requires t.Struct? && ReadSoFar(whole, t, buf, offset, slots)
    requires var h := ReadFieldBegin(buf[offset..]);
      && h.Ok? && h.value.Begin?
      && i == Find(t.fields, h.value.id) < |t.fields| && Code(t.fields[i].typ) == h.value.code
    requires offset + 3 <= |buf| && r == Decode(t.fields[i].typ, buf[offset + 3..])
    ensures r.Err? ==> whole == Err(r.error)
    ensures r.Ok? ==> ReadSoFar(whole, t, buf, offset + 3 + r.used, slots[i := Set(r.value)])
  {
    assert buf[offset..][3..] == buf[offset + 3..];
    if r.Ok? {
      assert buf[offset..][3 + r.used..] == buf[offset + 3 + r.used..];
    }
  }

  /** One turn of the reader's loop, for a field that it skips. */
  lemma SkipStep(whole: Outcome<Value>, t: Type, buf: seq<byte>, offset: nat, slots: seq<Slot>, r: Outcome<()>)
    requires t.Struct? && ReadSoFar(whole, t, buf, offset, slots)
    requires var h := ReadFieldBegin(buf[offset..]);
      && h.Ok? && h.value.Begin? && !Wanted(t.fields, h.value.code, h.value.id)
      && offset + 3 <= |buf| && r == Skip(h.value.code, buf[offset + 3..])
    ensures r.Err? ==> whole == Err(r.error)
    ensures r.Ok? ==> ReadSoFar(whole, t, buf, offset + 3 + r.used, slots)
  {
    assert buf[offset..][3..] == buf[offset + 3..];
    if r.Ok? {
      assert buf[offset..][3 + r.used..] == buf[offset + 3 + r.used..];
    }
  }

  datatype Turn = Done(outcome: Outcome<Value>) | Next(offset: nat, slots: seq<Slot>)

  method FastRead(t: Type, buf: seq<byte>) returns (r: Outcome<Value>)
    requires t.Struct?
    ensures r == Decode(t, buf)
    decreases t, 0, 1
  {
    var offset := 0;
    var slots := EmptySlots(t.fields);
    ghost var whole := Decode(t, buf);
    ReadFromStart(t, buf);
    while true
      invariant 0 <= offset && ReadSoFar(whole, t, buf, offset, slots)
      decreases |buf| - offset
    {
      var turn := ReadField(t, buf, offset, slots, whole);
      if turn.Done? {
        return turn.outcome;
      }
      offset, slots := turn.offset, turn.slots;
    }
  }

  /** The turn ends the read with its outcome, or brings it further. */
  ghost predicate TurnOk(turn: Turn, whole: Outcome<Value>, t: Type, buf: seq<byte>, offset: nat)
    requires t.Struct?
  {
    match turn
    case Done(r) => r == whole
    case Next(o, s) => offset + 3 <= o && ReadSoFar(whole, t, buf, o, s)
  }

  /** The body of the reader's loop. */
  method ReadField(t: Type, buf: seq<byte>, offset: nat, slots: seq<Slot>, ghost whole: Outcome<Value>)
    returns (turn: Turn)
    requires t.Struct? && ReadSoFar(whole, t, buf, offset, slots)
    ensures TurnOk(turn, whole, t, buf, offset)
    decreases t, 0, 0
  {
    StopStep(whole, t, buf, offset, slots);
    var h := ReadFieldBegin(buf[offset..]);
    if h.Err? {
      return Done(Err(h.error));
    }
    if h.value.End? {
      return Done(Advance(Finish(t.fields, slots, 1), offset));
    }
    var i := Find(t.fields, h.value.id);
    if i < |t.fields| && Code(t.fields[i].typ) == h.value.code {
      var f := ReadValue(t.fields[i].typ, buf[offset + 3..]);
      TakeStep(whole, t, buf, offset, slots, i, f);
      turn := TakeTurn(t, offset, slots, i, f, buf, whole);
    } else {
      turn := SkipTurn(t, offset, slots, h.value.code, buf, whole);
    }
  }

  method SkipTurn(t: Type, offset: nat, slots: seq<Slot>, code: byte, buf: seq<byte>, ghost whole: Outcome<Value>)
    returns (turn: Turn)
    requires t.Struct? && ReadSoFar(whole, t, buf, offset, slots) && offset + 3 <= |buf|
    requires var h := ReadFieldBegin(buf[offset..]);
      h.Ok? && h.value.Begin? && h.value.code == code && !Wanted(t.fields, code, h.value.id)
    ensures TurnOk(turn, whole, t, buf, offset)
  {
    var s := Skip(code, buf[offset + 3..]);
    SkipStep(whole, t, buf, offset, slots, s);
    turn := if s.Err? then Done(Err(s.error)) else Next(offset + 3 + s.used, slots);
  }

  method TakeTurn(t: Type, offset: nat, slots: seq<Slot>, i: nat, f: Outcome<Value>,
                  ghost buf: seq<byte>, ghost whole: Outcome<Value>) returns (turn: Turn)
    requires t.Struct? && i < |slots|
    requires f.Err? ==> whole == Err(f.error)
    requires f.Ok? ==> ReadSoFar(whole, t, buf, offset + 3 + f.used, slots[i := Set(f.value)])
    ensures TurnOk(turn, whole, t, buf, offset)
  {
    turn := if f.Err? then Done(Err(f.error)) else Next(offset + 3 + f.used, slots[i := Set(f.value)]);
  }

  method ReadValue(t: Type, buf: seq<byte>) returns (r: Outcome<Value>)
    ensures r == Decode(t, buf)
    decreases t, 1
  {
    match t
    case Bool => r := Decode(t, buf);
    case Int32 => r := Decode(t, buf);
    case Int64 => r := Decode(t, buf);
    case String => r := Decode(t, buf);
    case Struct(_, _) => r := FastRead(t, buf);
    case List(elem) =>
      var h := ReadListBegin(buf);
      if h.Err? {
        return Err(h.error);
      }
      var items := ReadItems(elem, h.value.size, buf[5..]);
      if items.Err? {
        return Err(items.error);
      }
      r := Ok(VList(items.value), 5 + items.used);
  }

  method ReadItems(elem: Type, count: nat, buf: seq<byte>) returns (r: Outcome<seq<Value>>)
    ensures r == DecodeItems(elem, count, buf)
    decreases elem, 2
  {
    var items, offset, i := [], 0, 0;
    ghost var all := DecodeItems(elem, count, buf);
    ItemsFromStart(elem, count, buf);
    while i < count
      invariant 0 <= i <= count && 0 <= offset && ItemsSoFar(all, elem, count - i, buf, offset, items)
    {
      ItemStep(all, elem, count - i, buf, offset, items);
      var e := ReadValue(elem, buf[offset..]);
      if e.Err? {
        return Err(e.error);
      }
      items := items + [e.value];
      offset := offset + e.used;
      i := i + 1;
    }
    assert items + [] == items;
    r := Ok(items, offset);
  }

  /** `all` is the outcome of reading a list of which `items` have been read and `left` items
      are still to come. */
  ghost predicate ItemsSoFar(
    all: Outcome<seq<Value>>, elem: Type, left: nat, buf: seq<byte>, offset: nat, items: seq<Value>)
  {
    && offset <= |buf|
    && all == match DecodeItems(elem, left, buf[offset..])
              case Ok(vs, m) => Ok(items + vs, offset + m)
              case Err(e) => Err(e)
  }

  lemma {:induction false} ItemsFromStart(elem: Type, count: nat, buf: seq<byte>)
    ensures ItemsSoFar(DecodeItems(elem, count, buf), elem, count, buf, 0, [])
  {
    assert buf[0..] == buf;
    var r := DecodeItems(elem, count, buf);
    if r.Ok? {
      assert [] + r.value == r.value;
    }
  }

  /** One turn of the reader's loop over a list. */
  lemma {:induction false} ItemStep(
    all: Outcome<seq<Value>>, elem: Type, left: nat, buf: seq<byte>, offset: nat, items: seq<Value>)
    requires left > 0 && ItemsSoFar(all, elem, left, buf, offset, items)
    ensures match Decode(elem, buf[offset..])
      case Err(e) => all == Err(e)
      case Ok(v, n) => ItemsSoFar(all, elem, left - 1, buf, offset + n, items + [v])
  {
    var e := Decode(elem, buf[offset..]);
    if e.Ok? {
      assert buf[offset..][e.used..] == buf[offset + e.used..];
      OneItemFurther(items, e.value, e.used, DecodeItems(elem, left - 1, buf[offset + e.used..]));
    }
  }

  /** Putting an item in front of those that follow is the same as adding it to those before. */
  lemma OneItemFurther(items: seq<Value>, v: Value, n: nat, r: Outcome<seq<Value>>)
    ensures r.Ok? ==> items + ([v] + r.value) == items + [v] + r.value
  {}
}

/** The language of the reader: the buffers it accepts are exactly those that begin with a sequence
    of acceptable fields, in which every required field occurs, and a STOP byte. */
module ThriftGrammar {
  import opened ThriftPrimitives
  import opened ThriftCodec
  import opened ThriftMessages
  import opened ThriftRoundTrip

  // ---------------------------------------------------------------------------------------
  // Integers as they are on the wire
  // ---------------------------------------------------------------------------------------

  lemma {:induction false} BigEndianOfRead(s: seq<byte>)
    ensures BigEndian(FromBigEndian(s), |s|) == s
  {
    if s != [] {
      var init, last := s[..|s| - 1], s[|s| - 1];
      BigEndianOfRead(init);
      var n := FromBigEndian(s);
      assert n == 256 * FromBigEndian(init) + last;
      assert n / 256 == FromBigEndian(init) && n % 256 == last;
      assert init + [last] == s;
    }
  }

  lemma WrittenAsRead(s: seq<byte>)
    requires |s| == 2
    ensures WriteInt(ToSigned(FromBigEndian(s), 2), 2) == s
  {
    Pow256Values();
    FromBigEndianRange(s);
    BigEndianOfRead(s);
    var u := FromBigEndian(s);
    Residue(ToSigned(u, 2), Pow256(2));
  }

  /** A field header that was read is the header that would be written. */
  lemma HeaderAsRead(buf: seq<byte>)
    requires ReadFieldBegin(buf).Ok? && ReadFieldBegin(buf).value.Begin?
    ensures var h := ReadFieldBegin(buf).value; buf[..3] == WriteFieldBegin(h.code, h.id)
  {
    var id := buf[1..][..2];
    WrittenAsRead(id);
    assert buf[..3] == [buf[0]] + id;
  }

  // ---------------------------------------------------------------------------------------
  // The bytes that a reader used are all that it needs
  // ---------------------------------------------------------------------------------------

  /** Two readers one behind the other: `n` bytes for the first and `m` for the second. */
  lemma Cut(buf: seq<byte>, n: nat, m: nat)
    requires n + m <= |buf|
    ensures buf[..n + m] == buf[..n] + buf[n..n + m]
    ensures buf[..n + m][n..] == buf[n..][..m]
  {}

  lemma ReadFieldBeginExact(buf: seq<byte>)
    ensures var r := ReadFieldBegin(buf); r.Ok? ==> ReadFieldBegin(buf[..r.used]) == r
  {
    var r := ReadFieldBegin(buf);
    if r.Ok? && r.value.Begin? {
      assert buf[..3][1..][..2] == buf[1..][..2];
    }
  }

  lemma ReadListBeginExact(buf: seq<byte>)
    ensures var r := ReadListBegin(buf); r.Ok? ==> ReadListBegin(buf[..r.used]) == r
  {
    if ReadListBegin(buf).Ok? {
      assert buf[..5][1..][..4] == buf[1..][..4];
    }
  }

  lemma ReadStringExact(buf: seq<byte>)
    ensures var r := ReadString(buf); r.Ok? ==> ReadString(buf[..r.used]) == r
  {
    var r := ReadString(buf);
    if r.Ok? {
      assert buf[..r.used][..4] == buf[..4];
      assert buf[..r.used][4..r.used] == buf[4..r.used];
    }
  }

  lemma {:induction false} SkipExact(code: byte, buf: seq<byte>)
    ensures var r := Skip(code, buf); r.Ok? ==> Skip(code, buf[..r.used]) == r
    decreases |buf|, 1
  {
    var r := Skip(code, buf);
    if r.Ok? {
      if FixedSize(code) > 0 {
      } else if code == STRING {
        ReadStringExact(buf);
      } else if code == STRUCT {
        SkipFieldsExact(buf);
      } else if code == LIST || code == SET {
        SkipListExact(code, buf);
      } else if code == MAP {
        SkipMapExact(buf);
      }
    }
  }

  lemma {:induction false} SkipListExact(code: byte, buf: seq<byte>)
    requires (code == LIST || code == SET) && Skip(code, buf).Ok?
    ensures var r := Skip(code, buf); Skip(code, buf[..r.used]) == r
    decreases |buf|, 0
  {
    var h := ReadListBegin(buf).value;
    var items := SkipItems([h.elem], h.size, buf[5..]);
    ReadListBeginExact(buf);
    Cut(buf, 5, items.used);
    ReadListBeginStable(buf[..5], buf[5..5 + items.used]);
    SkipItemsExact([h.elem], h.size, buf[5..]);
  }

  lemma {:induction false} SkipMapExact(buf: seq<byte>)
    requires Skip(MAP, buf).Ok?
    ensures var r := Skip(MAP, buf); Skip(MAP, buf[..r.used]) == r
    decreases |buf|, 0
  {
    var h := ReadListBegin(buf[1..]).value;
    var codes := [buf[0], h.elem];
    var items := SkipItems(codes, h.size, buf[6..]);
    var p := buf[..6 + items.used];
    ReadListBeginExact(buf[1..]);
    Cut(buf[1..], 5, items.used);
    ReadListBeginStable(buf[1..][..5], buf[1..][5..5 + items.used]);
    assert p[1..] == buf[1..][..5 + items.used];
    Cut(buf, 6, items.used);
    SkipItemsExact(codes, h.size, buf[6..]);
  }

  /** The bytes that skipping a struct with outcome `r` used are all that it needs. */
  ghost predicate FieldsExact(buf: seq<byte>, r: Outcome<()>) {
    r.Ok? ==> r.used <= |buf| && SkipFields(buf[..r.used]) == r
  }

  lemma {:induction false} SkipFieldsExact(buf: seq<byte>)
    ensures FieldsExact(buf, SkipFields(buf))
    decreases |buf|, 0
  {
    if SkipFields(buf).Ok? {
      ReadFieldBeginExact(buf);
      if ReadFieldBegin(buf).value.Begin? {
        var code, n, later := FirstSkipped(buf);
        SkipExact(code, buf[3..]);
        SkipFieldsExact(buf[3 + n..]);
        SkipFieldsGlue(buf, code, n, later);
      }
    }
  }

  lemma {:induction false} FirstSkipped(buf: seq<byte>) returns (code: byte, n: nat, later: Outcome<()>)
    requires SkipFields(buf).Ok? && ReadFieldBegin(buf).value.Begin?
    ensures ReadFieldBegin(buf).value.code == code && 3 + n <= |buf|
    ensures Skip(code, buf[3..]).Ok? && Skip(code, buf[3..]).used == n
    ensures later == SkipFields(buf[3 + n..]) && later.Ok? && SkipFields(buf) == Advance(later, 3 + n)
  {
    code := ReadFieldBegin(buf).value.code;
    n := Skip(code, buf[3..]).used;
    later := SkipFields(buf[3 + n..]);
  }

  lemma {:induction false} SkipFieldsGlue(buf: seq<byte>, code: byte, n: nat, later: Outcome<()>)
    requires 3 + n <= |buf| && later.Ok? && FieldsExact(buf[3 + n..], later)
    requires var h := ReadFieldBegin(buf[..3]); h.Ok? && h.value.Begin? && h.value.code == code
    requires var s := Skip(code, buf[3..][..n]); s.Ok? && s.used == n
    ensures FieldsExact(buf, Advance(later, 3 + n))
  {
    var m := later.used;
    var p := buf[..3 + n + m];
    Cut(buf, 3, n + m);
    ReadFieldBeginStable(buf[..3], buf[3..3 + (n + m)]);
    Cut(buf[3..], n, m);
    SkipStable(code, buf[3..][..n], buf[3..][n..n + m]);
    assert p[3..] == buf[3..][..n + m];
    assert p[3 + n..] == buf[3 + n..][..m];
  }

  /** The bytes that skipping `count` items with outcome `r` used are all that it needs. */
  ghost predicate RowsExact(codes: seq<byte>, count: nat, buf: seq<byte>, r: Outcome<()>) {
    r.Ok? ==> r.used <= |buf| && SkipItems(codes, count, buf[..r.used]) == r
  }

  lemma {:induction false} SkipItemsExact(codes: seq<byte>, count: nat, buf: seq<byte>)
    ensures RowsExact(codes, count, buf, SkipItems(codes, count, buf))
    decreases |buf|, 2, count, |codes| + 1
  {
    if SkipItems(codes, count, buf).Ok? && count > 0 {
      var n, later := FirstRow(codes, count, buf);
      SkipRowExact(codes, buf);
      SkipItemsExact(codes, count - 1, buf[n..]);
      SkipItemsGlue(codes, count, buf, n, later);
    }
  }

  lemma {:induction false} FirstRow(codes: seq<byte>, count: nat, buf: seq<byte>) returns (n: nat, later: Outcome<()>)
    requires count > 0 && SkipItems(codes, count, buf).Ok?
    ensures n <= |buf| && SkipRow(codes, buf).Ok? && SkipRow(codes, buf).used == n
    ensures later == SkipItems(codes, count - 1, buf[n..]) && later.Ok?
    ensures SkipItems(codes, count, buf) == Advance(later, n)
  {
    n := SkipRow(codes, buf).used;
    later := SkipItems(codes, count - 1, buf[n..]);
  }

  lemma {:induction false} SkipItemsGlue(codes: seq<byte>, count: nat, buf: seq<byte>, n: nat, later: Outcome<()>)
    requires count > 0 && n <= |buf| && later.Ok? && RowsExact(codes, count - 1, buf[n..], later)
    requires var row := SkipRow(codes, buf[..n]); row.Ok? && row.used == n
    ensures RowsExact(codes, count, buf, Advance(later, n))
  {
    Cut(buf, n, later.used);
    SkipRowStable(codes, buf[..n], buf[n..n + later.used]);
  }

  lemma {:induction false} SkipRowExact(codes: seq<byte>, buf: seq<byte>)
    ensures var r := SkipRow(codes, buf); r.Ok? ==> SkipRow(codes, buf[..r.used]) == r
    decreases |buf|, 2, 0, |codes|
  {
    var r := SkipRow(codes, buf);
    if r.Ok? && codes != [] {
      var n := Skip(codes[0], buf).used;
      var m := SkipRow(codes[1..], buf[n..]).used;
      SkipExact(codes[0], buf);
      SkipRowExact(codes[1..], buf[n..]);
      SkipRowGlue(codes, buf, n, m);
    }
  }

  lemma {:induction false} SkipRowGlue(codes: seq<byte>, buf: seq<byte>, n: nat, m: nat)
    requires codes != [] && n + m <= |buf|
    requires var s := Skip(codes[0], buf[..n]); s.Ok? && s.used == n
    requires SkipRow(codes[1..], buf[n..][..m]).Ok?
    ensures SkipRow(codes, buf[..n + m]) == Advance(SkipRow(codes[1..], buf[n..][..m]), n)
  {
    Cut(buf, n, m);
    SkipStable(codes[0], buf[..n], buf[n..n + m]);
  }

  lemma {:induction false} DecodeExact(t: Type, buf: seq<byte>)
    ensures var r := Decode(t, buf); r.Ok? ==> Decode(t, buf[..r.used]) == r
    decreases t, 1
  {
    var r := Decode(t, buf);
    if r.Ok? {
      match t
      case Bool =>
      case Int32 => assert buf[..4][..4] == buf[..4];
      case Int64 => assert buf[..8][..8] == buf[..8];
      case String => ReadStringExact(buf);
      case Struct(fields, _) => DecodeFieldsExact(t, buf, EmptySlots(fields));
      case List(elem) =>
        var count := ReadListBegin(buf).value.size;
        var m := DecodeItems(elem, count, buf[5..]).used;
        ReadListBeginExact(buf);
        Cut(buf, 5, m);
        ReadListBeginStable(buf[..5], buf[5..5 + m]);
        DecodeItemsExact(elem, count, buf[5..]);
    }
  }

  /** The bytes that reading `count` items with outcome `r` used are all that it needs. */
  ghost predicate ItemsExact(elem: Type, count: nat, buf: seq<byte>, r: Outcome<seq<Value>>) {
    r.Ok? ==> r.used <= |buf| && DecodeItems(elem, count, buf[..r.used]) == r
  }

  lemma {:induction false} DecodeItemsExact(elem: Type, count: nat, buf: seq<byte>)
    ensures ItemsExact(elem, count, buf, DecodeItems(elem, count, buf))
    decreases elem, 2, count
  {
    if count > 0 && DecodeItems(elem, count, buf).Ok? {
      var first, others := FirstItem(elem, count, buf);
      DecodeExact(elem, buf);
      DecodeItemsExact(elem, count - 1, buf[first.used..]);
      DecodeItemsGlue(elem, count, buf, first.value, first.used, others.value, others.used);
    }
  }

  lemma {:induction false} FirstItem(elem: Type, count: nat, buf: seq<byte>)
    returns (first: Outcome<Value>, others: Outcome<seq<Value>>)
    requires count > 0 && DecodeItems(elem, count, buf).Ok?
    ensures first.Ok? && first == Decode(elem, buf)
    ensures others.Ok? && others == DecodeItems(elem, count - 1, buf[first.used..]) && |others.value| + 1 == count
    ensures DecodeItems(elem, count, buf) == Ok([first.value] + others.value, first.used + others.used)
  {
    first := Decode(elem, buf);
    others := DecodeItems(elem, count - 1, buf[first.used..]);
  }

  lemma {:induction false} DecodeItemsGlue(
    elem: Type, count: nat, buf: seq<byte>, v: Value, n: nat, vs: seq<Value>, m: nat)
    requires n <= |buf| && count == |vs| + 1
    requires Decode(elem, buf[..n]) == Ok(v, n) && ItemsExact(elem, |vs|, buf[n..], Ok(vs, m))
    ensures ItemsExact(elem, count, buf, Ok([v] + vs, n + m))
  {
    var head, tail := buf[..n], buf[n..][..m];
    DecodeStable(elem, head, tail);
    DecodeItemsCons(elem, head, tail, v, vs, m);
    HeadAndTail(buf, n, m);
    assert |[v] + vs| == count;
  }

  lemma HeadAndTail(buf: seq<byte>, n: nat, m: nat)
    requires n + m <= |buf|
    ensures buf[..n + m] == buf[..n] + buf[n..][..m]
  {}

  // ---------------------------------------------------------------------------------------
  // What the reader accepts is a message
  // ---------------------------------------------------------------------------------------

  /** The first field of an accepted buffer: its bytes, and what reading it does. */
  lemma {:induction false} FirstField(t: Type, buf: seq<byte>, slots: seq<Slot>) returns (f: WireField)
    requires t.Struct? && |slots| == |t.fields| && DecodeFields(t, buf, slots).Ok?
    requires ReadFieldBegin(buf).value.Begin?
    ensures Accepted(t.fields, f) && |Raw(f)| <= |buf| && buf[..|Raw(f)|] == Raw(f)
    decreases t, 0, |buf|, 0
  {
    var h := ReadFieldBegin(buf).value;
    var i := Find(t.fields, h.id);
    var n: nat;
    if Wanted(t.fields, h.code, h.id) {
      n := Decode(t.fields[i].typ, buf[3..]).used;
      DecodeExact(t.fields[i].typ, buf[3..]);
    } else {
      var s := Skip(h.code, buf[3..]);
      n := s.used;
      SkipExact(h.code, buf[3..]);
      assert s.value == ();
    }
    f := WireField(h.code, h.id, buf[3..][..n]);
    HeaderAsRead(buf);
    assert buf[..3 + n] == buf[..3] + buf[3..][..n];
  }

  /** An accepted buffer is a message of acceptable fields, followed by whatever it did not use. */
  lemma {:induction false} AcceptedIsMessage(t: Type, buf: seq<byte>, slots: seq<Slot>) returns (ws: seq<WireField>)
    requires t.Struct? && |slots| == |t.fields| && DecodeFields(t, buf, slots).Ok?
    ensures AllAccepted(t.fields, ws) && buf[..DecodeFields(t, buf, slots).used] == Message(ws)
    decreases t, 0, |buf|, 1
  {
    var r := DecodeFields(t, buf, slots);
    if ReadFieldBegin(buf).value.End? {
      ws := [];
      assert buf[..1] == [STOP];
    } else {
      var f := FirstField(t, buf, slots);
      var tail := buf[|Raw(f)|..];
      assert buf == Raw(f) + tail;
      ReadOne(t, f, slots, tail);
      var later := AcceptedIsMessage(t, tail, Put(t.fields, slots, f));
      ws := [f] + later;
      MessageCons(t.fields, f, later);
      PrefixOfSum(Raw(f), tail, |Message(later)|);
    }
  }

  lemma {:induction false} MessageCons(fields: seq<Field>, f: WireField, ws: seq<WireField>)
    requires Accepted(fields, f) && AllAccepted(fields, ws)
    ensures AllAccepted(fields, [f] + ws) && Message([f] + ws) == Raw(f) + Message(ws)
  {
    assert ([f] + ws)[1..] == ws;
  }

  lemma PrefixOfSum(a: seq<byte>, b: seq<byte>, n: nat)
    requires n <= |b|
    ensures (a + b)[..|a| + n] == a + b[..n]
  {}

  lemma {:induction false} DecodeFieldsExact(t: Type, buf: seq<byte>, slots: seq<Slot>)
    requires t.Struct? && |slots| == |t.fields|
    ensures var r := DecodeFields(t, buf, slots); r.Ok? ==> DecodeFields(t, buf[..r.used], slots) == r
    decreases t, 0, |buf|, 2
  {
    var r := DecodeFields(t, buf, slots);
    if r.Ok? {
      var ws := AcceptedIsMessage(t, buf, slots);
      assert Message(ws) + [] == buf[..r.used];
      assert Message(ws) + buf[r.used..] == buf;
      RestIsIrrelevant(t, ws, slots, [], buf[r.used..]);
    }
  }

  lemma {:induction false} RestIsIrrelevant(t: Type, ws: seq<WireField>, slots: seq<Slot>, a: seq<byte>, b: seq<byte>)
    requires t.Struct? && |slots| == |t.fields| && AllAccepted(t.fields, ws)
    ensures DecodeFields(t, Message(ws) + a, slots) == DecodeFields(t, Message(ws) + b, slots)
  {
    ReadSequence(t, ws, slots, a);
    ReadSequence(t, ws, slots, b);
  }

  /** The buffer begins with a message of acceptable fields in which every required one occurs. */
  ghost predicate BeginsWith(t: Type, buf: seq<byte>, ws: seq<WireField>)
    requires t.Struct?
  {
    && AllAccepted(t.fields, ws)
    && Message(ws) <= buf
    && (forall i :: 0 <= i < |t.fields| && t.fields[i].required ==> LastFill(t.fields, ws, i) >= 0)
  }

  /** The reader accepts a buffer if and only if it begins with such a message, and the bytes it
      uses are that message. */
  lemma {:induction false} AcceptsExactly(t: Type, buf: seq<byte>)
    requires t.Struct?
    ensures Decode(t, buf).Ok? <==> exists ws :: BeginsWith(t, buf, ws)
    ensures forall ws :: BeginsWith(t, buf, ws) ==> Decode(t, buf).Ok? && Decode(t, buf).used == |Message(ws)|
  {
    if Decode(t, buf).Ok? {
      var ws := AcceptedIsMessage(t, buf, EmptySlots(t.fields));
      MessageRead(t, buf, ws);
      assert BeginsWith(t, buf, ws);
    }
    forall ws | BeginsWith(t, buf, ws) ensures Decode(t, buf).Ok? && Decode(t, buf).used == |Message(ws)| {
      MessageRead(t, buf, ws);
    }
  }

  lemma {:induction false} MessageRead(t: Type, buf: seq<byte>, ws: seq<WireField>)
    requires t.Struct? && AllAccepted(t.fields, ws) && Message(ws) <= buf
    ensures var r := Decode(t, buf);
      && (r.Ok? <==> forall i :: 0 <= i < |t.fields| && t.fields[i].required ==> LastFill(t.fields, ws, i) >= 0)
      && (r.Ok? ==> r.used == |Message(ws)|)
  {
    var rest := buf[|Message(ws)|..];
    assert Message(ws) + rest == buf;
    MessageIsReadExactly(t, ws, rest);
  }
}

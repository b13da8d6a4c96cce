/** The primitives of the Thrift binary protocol that the generated codec calls: big-endian
    fixed-width integers, length-prefixed strings, field and list headers, and the skipping of
    a value whose type the reader does not want.

    Every reader takes the unread part of the buffer and answers with the value and the number
    of bytes used, or with the reason it stopped. */
module ThriftPrimitives {

  type byte = b: int | 0 <= b < 256

  const STOP: byte := 0
  const BOOL: byte := 2
  const I08: byte := 3
  const DOUBLE: byte := 4
  const I16: byte := 6
  const I32: byte := 8
  const I64: byte := 10
  const STRING: byte := 11
  const STRUCT: byte := 12
  const MAP: byte := 13
  const SET: byte := 14
  const LIST: byte := 15

  datatype ReadError =
    | Truncated
    | NegativeSize
    | UnknownType(code: byte)
    | MissingRequired(id: int)

  datatype Outcome<+T> = Ok(value: T, used: nat) | Err(error: ReadError)

  /** The outcome of a reader that started `n` bytes further on. */
  function Advance<T>(r: Outcome<T>, n: nat): Outcome<T> {
    match r
    case Ok(v, used) => Ok(v, n + used)
    case Err(e) => Err(e)
  }

  /** More input can only change an outcome that complained about missing input. */
  ghost predicate Stable<T>(r: Outcome<T>, extended: Outcome<T>) {
    r != Err(Truncated) ==> extended == r
  }

  // ---------------------------------------------------------------------------------------
  // Fixed-width integers
  // ---------------------------------------------------------------------------------------

  function Pow256(k: nat): nat {
    if k == 0 then 1 else 256 * Pow256(k - 1)
  }

  /** The low `k` bytes of `n`, most significant first. */
  function BigEndian(n: nat, k: nat): (s: seq<byte>)
    ensures |s| == k
  {
    if k == 0 then [] else BigEndian(n / 256, k - 1) + [n % 256]
  }

  function FromBigEndian(s: seq<byte>): nat {
    if s == [] then 0 else 256 * FromBigEndian(s[..|s| - 1]) + s[|s| - 1]
  }

  lemma {:induction false} OneByteMore(s: seq<byte>, b: byte)
    ensures FromBigEndian(s + [b]) == 256 * FromBigEndian(s) + b
  {
    var all := s + [b];
    assert all[..|all| - 1] == s;
  }

  lemma {:induction false} BigEndianRoundTrip(n: nat, k: nat)
    requires n < Pow256(k)
    ensures FromBigEndian(BigEndian(n, k)) == n
  {
    if k > 0 {
      BigEndianRoundTrip(n / 256, k - 1);
      OneByteMore(BigEndian(n / 256, k - 1), n % 256);
    }
  }

  lemma {:induction false} FromBigEndianRange(s: seq<byte>)
    ensures FromBigEndian(s) < Pow256(|s|)
  {
    if s == [] {
    } else {
      FromBigEndianRange(s[..|s| - 1]);
    }
  }

  /** The first byte is the most significant one. */
  lemma {:induction false} MostSignificantFirst(b: byte, s: seq<byte>)
    ensures FromBigEndian([b] + s) == b * Pow256(|s|) + FromBigEndian(s)
  {
    var all := [b] + s;
    if s == [] {
      assert all[..0] == [];
    } else {
      var init, last := s[..|s| - 1], s[|s| - 1];
      MostSignificantFirst(b, init);
      assert all[..|all| - 1] == [b] + init;
      TimesByte(b, Pow256(|init|), FromBigEndian(init));
    }
  }

  lemma TimesByte(b: int, p: int, x: int)
    ensures 256 * (b * p + x) == b * (256 * p) + 256 * x
  {}

  lemma Pow256Values()
    ensures Pow256(2) == 0x1_0000
    ensures Pow256(4) == 0x1_0000_0000
    ensures Pow256(8) == 0x1_0000_0000_0000_0000
  {
    assert Pow256(1) == 256;
    assert Pow256(2) == 0x1_0000;
    assert Pow256(3) == 0x100_0000;
    assert Pow256(4) == 0x1_0000_0000;
    assert Pow256(5) == 0x100_0000_0000;
    assert Pow256(6) == 0x1_0000_0000_0000;
    assert Pow256(7) == 0x100_0000_0000_0000;
  }

  /** `v` fits a `k`-byte two's complement integer. */
  predicate FitsSigned(v: int, k: nat) {
    0 - Pow256(k) <= 2 * v < Pow256(k)
  }

  /** The two's complement bytes of `v`; a value that does not fit loses its high bytes, as a
      Go conversion to a narrower integer does. */
  function WriteInt(v: int, k: nat): (s: seq<byte>)
    ensures |s| == k
  {
    PowPositive(k);
    BigEndian(v % Pow256(k), k)
  }

  lemma PowPositive(k: nat)
    ensures Pow256(k) > 0
  {}

  function ToSigned(u: nat, k: nat): int {
    if 2 * u < Pow256(k) then u else u - Pow256(k)
  }

  function ReadInt(buf: seq<byte>, k: nat): (r: Outcome<int>)
    ensures r.Ok? ==> r.used == k <= |buf| && FitsSigned(r.value, k)
    ensures r.Err? ==> r.error == Truncated
  {
    if |buf| < k then Err(Truncated)
    else
      FromBigEndianRange(buf[..k]);
      Ok(ToSigned(FromBigEndian(buf[..k]), k), k)
  }

  lemma IntRoundTrip(v: int, k: nat, rest: seq<byte>)
    requires FitsSigned(v, k)
    ensures ReadInt(WriteInt(v, k) + rest, k) == Ok(v, k)
  {
    PowPositive(k);
    var u := v % Pow256(k);
    Residue(v, Pow256(k));
    assert (WriteInt(v, k) + rest)[..k] == BigEndian(u, k);
    BigEndianRoundTrip(u, k);
  }

  lemma Residue(v: int, m: int)
    requires m > 0 && -m <= v < m
    ensures v % m == if v >= 0 then v else v + m
  {
    if v < 0 {
      assert v == -1 * m + (v + m);
    }
  }

  // ---------------------------------------------------------------------------------------
  // Strings and headers
  // ---------------------------------------------------------------------------------------

  predicate SizeFits(n: nat) {
    n < 0x8000_0000
  }

  function WriteString(s: seq<byte>): seq<byte> {
    WriteInt(|s|, 4) + s
  }

  function ReadString(buf: seq<byte>): (r: Outcome<seq<byte>>)
    ensures r.Ok? ==> 4 <= r.used <= |buf| && SizeFits(|r.value|)
  {
    Pow256Values();
    match ReadInt(buf, 4)
    case Err(e) => Err(e)
    case Ok(n, _) =>
      if n < 0 then Err(NegativeSize)
      else if |buf| < 4 + n then Err(Truncated)
      else Ok(buf[4..4 + n], 4 + n)
  }

  lemma StringRoundTrip(s: seq<byte>, rest: seq<byte>)
    requires SizeFits(|s|)
    ensures ReadString(WriteString(s) + rest) == Ok(s, |WriteString(s)|)
  {
    Pow256Values();
    IntRoundTrip(|s|, 4, s + rest);
    assert WriteString(s) + rest == WriteInt(|s|, 4) + (s + rest);
    assert (WriteString(s) + rest)[4..4 + |s|] == s;
  }

  function WriteBool(b: bool): seq<byte> {
    [if b then 1 else 0]
  }

  function ReadBool(buf: seq<byte>): (r: Outcome<bool>)
    ensures r.Ok? ==> r.used == 1 <= |buf|
  {
    if |buf| < 1 then Err(Truncated) else Ok(buf[0] == 1, 1)
  }

  predicate IdFits(id: int) {
    -0x8000 <= id < 0x8000
  }

  datatype FieldHeader = End | Begin(code: byte, id: int)

  function WriteFieldBegin(code: byte, id: int): (s: seq<byte>)
    ensures |s| == 3
  {
    [code] + WriteInt(id, 2)
  }

  /** A STOP byte carries no field id. */
  function ReadFieldBegin(buf: seq<byte>): (r: Outcome<FieldHeader>)
    ensures r.Ok? ==> r.used == (if r.value.End? then 1 else 3) <= |buf|
    ensures r.Ok? && r.value.Begin? ==> r.value.code != STOP && IdFits(r.value.id)
    ensures r.Err? ==> r.error == Truncated
  {
    Pow256Values();
    if |buf| < 1 then Err(Truncated)
    else if buf[0] == STOP then Ok(End, 1)
    else
      match ReadInt(buf[1..], 2)
      case Err(e) => Err(e)
      case Ok(id, _) => Ok(Begin(buf[0], id), 3)
  }

  lemma FieldBeginRoundTrip(code: byte, id: int, rest: seq<byte>)
    requires code != STOP && IdFits(id)
    ensures ReadFieldBegin(WriteFieldBegin(code, id) + rest) == Ok(Begin(code, id), 3)
  {
    Pow256Values();
    var buf := WriteFieldBegin(code, id) + rest;
    assert buf[1..] == WriteInt(id, 2) + rest;
    IntRoundTrip(id, 2, rest);
  }

  datatype ListHeader = ListHeader(elem: byte, size: nat)

  function WriteListBegin(elem: byte, size: nat): (s: seq<byte>)
    ensures |s| == 5
  {
    [elem] + WriteInt(size, 4)
  }

  function ReadListBegin(buf: seq<byte>): (r: Outcome<ListHeader>)
    ensures r.Ok? ==> r.used == 5 <= |buf| && SizeFits(r.value.size)
  {
    Pow256Values();
    if |buf| < 1 then Err(Truncated)
    else
      match ReadInt(buf[1..], 4)
      case Err(e) => Err(e)
      case Ok(n, _) => if n < 0 then Err(NegativeSize) else Ok(ListHeader(buf[0], n), 5)
  }

  lemma ListBeginRoundTrip(elem: byte, size: nat, rest: seq<byte>)
    requires SizeFits(size)
    ensures ReadListBegin(WriteListBegin(elem, size) + rest) == Ok(ListHeader(elem, size), 5)
  {
    Pow256Values();
    var buf := WriteListBegin(elem, size) + rest;
    assert buf[1..] == WriteInt(size, 4) + rest;
    IntRoundTrip(size, 4, rest);
  }

  /** A negative length is refused as such, however many bytes follow. */
  lemma NegativeSizesAreRefused(n: int, elem: byte, rest: seq<byte>)
    requires FitsSigned(n, 4) && n < 0
    ensures ReadString(WriteInt(n, 4) + rest) == Err(NegativeSize)
    ensures ReadListBegin([elem] + WriteInt(n, 4) + rest) == Err(NegativeSize)
  {
    IntRoundTrip(n, 4, rest);
    assert ([elem] + WriteInt(n, 4) + rest)[1..] == WriteInt(n, 4) + rest;
  }

  // ---------------------------------------------------------------------------------------
  // Skipping
  // ---------------------------------------------------------------------------------------

  function FixedSize(code: byte): nat {
    if code == BOOL || code == I08 then 1
    else if code == I16 then 2
    else if code == I32 then 4
    else if code == I64 || code == DOUBLE then 8
    else 0
  }

  function Skip(code: byte, buf: seq<byte>): (r: Outcome<()>)
    ensures r.Ok? ==> r.used <= |buf|
    decreases |buf|, 1
  {
    if FixedSize(code) > 0 then
      if |buf| < FixedSize(code) then Err(Truncated) else Ok((), FixedSize(code))
    else if code == STRING then
      match ReadString(buf)
      case Err(e) => Err(e)
      case Ok(_, used) => Ok((), used)
    else if code == STRUCT then SkipFields(buf)
    else if code == LIST || code == SET then
      match ReadListBegin(buf)
      case Err(e) => Err(e)
      case Ok(h, _) => Advance(SkipItems([h.elem], h.size, buf[5..]), 5)
    else if code == MAP then
      if |buf| < 1 then Err(Truncated)
      else
        match ReadListBegin(buf[1..])
        case Err(e) => Err(e)
        case Ok(h, _) => Advance(SkipItems([buf[0], h.elem], h.size, buf[6..]), 6)
    else Err(UnknownType(code))
  }

  /** The fields of a struct up to and including its STOP. */
  function SkipFields(buf: seq<byte>): (r: Outcome<()>)
    ensures r.Ok? ==> r.used <= |buf|
    decreases |buf|, 0
  {
    match ReadFieldBegin(buf)
    case Err(e) => Err(e)
    case Ok(End, _) => Ok((), 1)
    case Ok(Begin(code, _), _) =>
      match Skip(code, buf[3..])
      case Err(e) => Err(e)
      case Ok(_, n) => Advance(SkipFields(buf[3 + n..]), 3 + n)
  }

  /** `count` items, each made of one value per code: one code for a list or set, two for the
      key and value of a map. */
  function SkipItems(codes: seq<byte>, count: nat, buf: seq<byte>): (r: Outcome<()>)
    ensures r.Ok? ==> r.used <= |buf|
    decreases |buf|, 2, count, |codes| + 1
  {
    if count == 0 then Ok((), 0)
    else
      match SkipRow(codes, buf)
      case Err(e) => Err(e)
      case Ok(_, n) => Advance(SkipItems(codes, count - 1, buf[n..]), n)
  }

  function SkipRow(codes: seq<byte>, buf: seq<byte>): (r: Outcome<()>)
    ensures r.Ok? ==> r.used <= |buf|
    decreases |buf|, 2, 0, |codes|
  {
    if codes == [] then Ok((), 0)
    else
      match Skip(codes[0], buf)
      case Err(e) => Err(e)
      case Ok(_, n) => Advance(SkipRow(codes[1..], buf[n..]), n)
  }

  // ---------------------------------------------------------------------------------------
  // Stability: what a reader answers does not depend on bytes behind the ones it looked at
  // ---------------------------------------------------------------------------------------

  lemma DropAppend(buf: seq<byte>, n: nat, more: seq<byte>)
    requires n <= |buf|
    ensures (buf + more)[n..] == buf[n..] + more
  {}

  lemma ReadIntStable(buf: seq<byte>, k: nat, more: seq<byte>)
    ensures Stable(ReadInt(buf, k), ReadInt(buf + more, k))
  {
    if k <= |buf| {
      assert (buf + more)[..k] == buf[..k];
    }
  }

  lemma ReadStringStable(buf: seq<byte>, more: seq<byte>)
    ensures Stable(ReadString(buf), ReadString(buf + more))
  {
    ReadIntStable(buf, 4, more);
    var r := ReadInt(buf, 4);
    if r.Ok? && 0 <= r.value && 4 + r.value <= |buf| {
      assert (buf + more)[4..4 + r.value] == buf[4..4 + r.value];
    }
  }

  lemma ReadFieldBeginStable(buf: seq<byte>, more: seq<byte>)
    ensures Stable(ReadFieldBegin(buf), ReadFieldBegin(buf + more))
  {
    if |buf| > 0 {
      DropAppend(buf, 1, more);
      ReadIntStable(buf[1..], 2, more);
    }
  }

  lemma ReadListBeginStable(buf: seq<byte>, more: seq<byte>)
    ensures Stable(ReadListBegin(buf), ReadListBegin(buf + more))
  {
    if |buf| > 0 {
      DropAppend(buf, 1, more);
      ReadIntStable(buf[1..], 4, more);
    }
  }

  lemma {:induction false} SkipStable(code: byte, buf: seq<byte>, more: seq<byte>)
    ensures Stable(Skip(code, buf), Skip(code, buf + more))
    decreases |buf|, 1
  {
    if FixedSize(code) > 0 {
    } else if code == STRING {
      ReadStringStable(buf, more);
    } else if code == STRUCT {
      SkipFieldsStable(buf, more);
    } else if code == LIST || code == SET {
      ReadListBeginStable(buf, more);
      if ReadListBegin(buf).Ok? {
        DropAppend(buf, 5, more);
        var h := ReadListBegin(buf).value;
        SkipItemsStable([h.elem], h.size, buf[5..], more);
      }
    } else if code == MAP && |buf| > 0 {
      DropAppend(buf, 1, more);
      ReadListBeginStable(buf[1..], more);
      if ReadListBegin(buf[1..]).Ok? {
        DropAppend(buf, 6, more);
        var h := ReadListBegin(buf[1..]).value;
        SkipItemsStable([buf[0], h.elem], h.size, buf[6..], more);
      }
    }
  }

  lemma {:induction false} SkipFieldsStable(buf: seq<byte>, more: seq<byte>)
    ensures Stable(SkipFields(buf), SkipFields(buf + more))
    decreases |buf|, 0
  {
    ReadFieldBeginStable(buf, more);
    var h := ReadFieldBegin(buf);
    if h.Ok? && h.value.Begin? {
      DropAppend(buf, 3, more);
      SkipStable(h.value.code, buf[3..], more);
      var s := Skip(h.value.code, buf[3..]);
      if s.Ok? {
        DropAppend(buf, 3 + s.used, more);
        SkipFieldsStable(buf[3 + s.used..], more);
      }
    }
  }

  lemma {:induction false} SkipItemsStable(codes: seq<byte>, count: nat, buf: seq<byte>, more: seq<byte>)
    ensures Stable(SkipItems(codes, count, buf), SkipItems(codes, count, buf + more))
    decreases |buf|, 2, count, |codes| + 1
  {
    if count > 0 {
      SkipRowStable(codes, buf, more);
      var s := SkipRow(codes, buf);
      if s.Ok? {
        DropAppend(buf, s.used, more);
        SkipItemsStable(codes, count - 1, buf[s.used..], more);
      }
    }
  }

  lemma {:induction false} SkipRowStable(codes: seq<byte>, buf: seq<byte>, more: seq<byte>)
    ensures Stable(SkipRow(codes, buf), SkipRow(codes, buf + more))
    decreases |buf|, 2, 0, |codes|
  {
    if codes != [] {
      SkipStable(codes[0], buf, more);
      var s := Skip(codes[0], buf);
      if s.Ok? {
        DropAppend(buf, s.used, more);
        SkipRowStable(codes[1..], buf[s.used..], more);
      }
    }
  }
}

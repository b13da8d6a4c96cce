/** Trimming of white space and lengths in UTF-8. */
module Text {

  predicate IsSpace(c: char) {
    var n := c as int;
    || 0x09 <= n <= 0x0D || n == 0x20 || n == 0x85 || n == 0xA0 || n == 0x1680
    || 0x2000 <= n <= 0x200A || n == 0x2028 || n == 0x2029 || n == 0x202F || n == 0x205F || n == 0x3000
  }

  function TrimLeft(s: string): string {
    if s != [] && IsSpace(s[0]) then TrimLeft(s[1..]) else s
  }

  function TrimRight(s: string): string {
    if s != [] && IsSpace(s[|s| - 1]) then TrimRight(s[..|s| - 1]) else s
  }

  function Trim(s: string): string {
    TrimRight(TrimLeft(s))
  }

  predicate Trimmed(s: string) {
    s == [] || (!IsSpace(s[0]) && !IsSpace(s[|s| - 1]))
  }

  lemma {:induction false} TrimRightEnds(s: string)
    ensures TrimRight(s) <= s
    ensures var r := TrimRight(s); r == [] || !IsSpace(r[|r| - 1])
  {
    if s != [] && IsSpace(s[|s| - 1]) {
      TrimRightEnds(s[..|s| - 1]);
    }
  }

  lemma {:induction false} TrimLeftEnds(s: string)
    ensures var r := TrimLeft(s); r == [] || !IsSpace(r[0])
  {
    if s != [] && IsSpace(s[0]) {
      TrimLeftEnds(s[1..]);
    }
  }

  lemma TrimGivesTrimmed(s: string)
    ensures Trimmed(Trim(s))
  {
    TrimLeftEnds(s);
    TrimRightEnds(TrimLeft(s));
  }

  /** Trimming keeps a string exactly when it is trimmed already. */
  lemma TrimKeepsExactly(s: string)
    ensures Trim(s) == s <==> Trimmed(s)
  {
    TrimGivesTrimmed(s);
  }

  /** The length of the UTF-8 form. */
  function ByteLength(s: string): nat {
    if s == [] then 0
    else
      var n := s[0] as int;
      (if n < 0x80 then 1 else if n < 0x800 then 2 else if n < 0x10000 then 3 else 4) + ByteLength(s[1..])
  }

  predicate OneLine(s: string) {
    '\r' !in s && '\n' !in s
  }

  lemma SliceOfTail(s: string, lo: nat, hi: nat)
    requires 0 < lo <= hi <= |s|
    ensures s[1..][lo - 1..hi - 1] == s[lo..hi]
  {
    var a, b := s[1..][lo - 1..hi - 1], s[lo..hi];
    assert |a| == |b|;
    forall i | 0 <= i < |a| ensures a[i] == b[i] {}
  }

  lemma {:induction false} ByteLengthOfSlice(s: string, lo: nat, hi: nat)
    requires lo <= hi <= |s|
    ensures ByteLength(s[lo..hi]) <= ByteLength(s)
    decreases |s|
  {
    if s != [] {
      if lo > 0 {
        SliceOfTail(s, lo, hi);
        ByteLengthOfSlice(s[1..], lo - 1, hi - 1);
      } else if hi > 0 {
        ByteLengthOfSlice(s[1..], 0, hi - 1);
        assert s[0..hi][1..] == s[1..][0..hi - 1];
      }
    }
  }

  lemma {:induction false} TrimIsSlice(s: string) returns (lo: nat, hi: nat)
    ensures lo <= hi <= |s| && Trim(s) == s[lo..hi]
  {
    lo := TrimLeftIsSuffix(s);
    TrimRightEnds(TrimLeft(s));
    hi := lo + |Trim(s)|;
    assert Trim(s) == s[lo..][..|Trim(s)|];
  }

  lemma {:induction false} TrimLeftIsSuffix(s: string) returns (lo: nat)
    ensures lo <= |s| && TrimLeft(s) == s[lo..]
  {
    if s != [] && IsSpace(s[0]) {
      var n := TrimLeftIsSuffix(s[1..]);
      lo := n + 1;
    } else {
      lo := 0;
    }
  }

  lemma {:induction false} ShortText(s: string)
    requires forall i :: 0 <= i < |s| ==> s[i] < 128 as char
    ensures ByteLength(s) == |s|
  {
    if s != [] {
      ShortText(s[1..]);
    }
  }

  ghost predicate AllSpace(s: string) {
    forall i :: 0 <= i < |s| ==> IsSpace(s[i])
  }

  lemma {:induction false} TrimLeftStrips(s: string) returns (left: string)
    ensures s == left + TrimLeft(s) && AllSpace(left)
  {
    if s != [] && IsSpace(s[0]) {
      var l := TrimLeftStrips(s[1..]);
      left := [s[0]] + l;
      assert s == [s[0]] + s[1..];
    } else {
      left := [];
    }
  }

  lemma {:induction false} TrimRightStrips(s: string) returns (right: string)
    ensures s == TrimRight(s) + right && AllSpace(right)
  {
    if s != [] && IsSpace(s[|s| - 1]) {
      var r := TrimRightStrips(s[..|s| - 1]);
      right := r + [s[|s| - 1]];
      assert s == s[..|s| - 1] + [s[|s| - 1]];
    } else {
      right := [];
    }
  }

  /** Trimming takes away nothing but space, and all of it at both ends. */
  lemma {:induction false} TrimStrips(s: string) returns (left: string, right: string)
    ensures s == left + Trim(s) + right && AllSpace(left) && AllSpace(right) && Trimmed(Trim(s))
  {
    left := TrimLeftStrips(s);
    right := TrimRightStrips(TrimLeft(s));
    TrimGivesTrimmed(s);
  }
}

/** The encrypted configuration envelope: a fresh data key wrapped by the configured key, and the
    document sealed by the data key, both bound to what they are for. */
module ConfigEnvelope {
  import opened Text
  import opened Wrappers

  type Bytes = seq<bv8>

  const SCHEMA := "knowledge-core.io/config-envelope/v1"
  const KEY_SIZE := 32
  const MAXIMUM := 0x10_0000
  const NONCE_SIZE := 12
  const TAG_SIZE := 16

  datatype Binding = Binding(namespace: string, group: string, dataId: string)

  predicate Unsupported(s: string) {
    '\r' in s || '\n' in s || '|' in s
  }

  predicate ValidPart(s: string) {
    Trim(s) != "" && !Unsupported(Trim(s))
  }

  predicate ValidBinding(b: Binding) {
    ValidPart(b.namespace) && ValidPart(b.group) && ValidPart(b.dataId)
  }

  predicate ValidKeyId(id: string) {
    Trim(id) != "" && !Unsupported(id)
  }

  // ---------------------------------------------------------------------------------------
  // Associated data
  // ---------------------------------------------------------------------------------------

  function Join(parts: seq<string>): string
    requires parts != []
  {
    if |parts| == 1 then parts[0] else parts[0] + ['|'] + Join(parts[1..])
  }

  function Split(s: string): (parts: seq<string>)
    ensures parts != []
  {
    if s == [] then [[]]
    else
      var rest := Split(s[1..]);
      if s[0] == '|' then [[]] + rest else [[s[0]] + rest[0]] + rest[1..]
  }

  ghost predicate PipeFree(parts: seq<string>) {
    forall i :: 0 <= i < |parts| ==> '|' !in parts[i]
  }

  lemma {:induction false} SplitWord(word: string)
    requires '|' !in word
    ensures Split(word) == [word]
  {
    if word != [] {
      SplitWord(word[1..]);
      assert [word[0]] + word[1..] == word;
    }
  }

  lemma {:induction false} SplitAtPipe(word: string, rest: string)
    requires '|' !in word
    ensures Split(word + ['|'] + rest) == [word] + Split(rest)
  {
    var s := word + ['|'] + rest;
    if word == [] {
      assert s[1..] == rest;
    } else {
      assert s[1..] == word[1..] + ['|'] + rest;
      SplitAtPipe(word[1..], rest);
      var tail := Split(s[1..]);
      assert tail[0] == word[1..] && tail[1..] == Split(rest);
      assert [s[0]] + tail[0] == word;
    }
  }

  /** Joined parts without a pipe can be told apart again. */
  lemma {:induction false} SplitJoin(parts: seq<string>)
    requires parts != [] && PipeFree(parts)
    ensures Split(Join(parts)) == parts
  {
    if |parts| == 1 {
      SplitWord(parts[0]);
    } else {
      SplitJoin(parts[1..]);
      SplitAtPipe(parts[0], Join(parts[1..]));
      assert [parts[0]] + parts[1..] == parts;
    }
  }

  function WrapParts(keyId: string): seq<string> {
    [SCHEMA, "keywrap", keyId]
  }

  function PayloadParts(keyId: string, b: Binding): seq<string> {
    [SCHEMA, "payload", keyId, b.namespace, b.group, b.dataId]
  }

  function WrapAad(keyId: string): string {
    Join(WrapParts(keyId))
  }

  function PayloadAad(keyId: string, b: Binding): string {
    Join(PayloadParts(keyId, b))
  }

  lemma {:induction false} TrimRightKeepsPipe(s: string)
    ensures '|' in s ==> '|' in TrimRight(s)
  {
    if s != [] && IsSpace(s[|s| - 1]) {
      TrimRightKeepsPipe(s[..|s| - 1]);
      assert s == s[..|s| - 1] + [s[|s| - 1]];
    }
  }

  lemma {:induction false} TrimLeftKeepsPipe(s: string)
    ensures '|' in s ==> '|' in TrimLeft(s)
  {
    if s != [] && IsSpace(s[0]) {
      TrimLeftKeepsPipe(s[1..]);
      assert s == [s[0]] + s[1..];
    }
  }

  /** The check looks at the trimmed value, and still rules a pipe out of the whole value. */
  lemma ValidPartHasNoPipe(s: string)
    requires ValidPart(s)
    ensures '|' !in s
  {
    TrimLeftKeepsPipe(s);
    TrimRightKeepsPipe(TrimLeft(s));
  }

  lemma PartsArePipeFree(keyId: string, b: Binding)
    requires ValidKeyId(keyId) && ValidBinding(b)
    ensures PipeFree(WrapParts(keyId)) && PipeFree(PayloadParts(keyId, b))
  {
    ValidPartHasNoPipe(b.namespace);
    ValidPartHasNoPipe(b.group);
    ValidPartHasNoPipe(b.dataId);
    FixedPartsHaveNoPipe();
  }

  lemma FixedPartsHaveNoPipe()
    ensures '|' !in SCHEMA && '|' !in "keywrap" && '|' !in "payload"
  {}

  /** The associated data of a payload names its key id and its binding uniquely, and is never
      that of a wrapped key. */
  lemma AadIsInjective(keyId: string, b: Binding, keyId': string, b': Binding)
    requires ValidKeyId(keyId) && ValidBinding(b) && ValidKeyId(keyId') && ValidBinding(b')
    ensures PayloadAad(keyId, b) == PayloadAad(keyId', b') <==> keyId == keyId' && b == b'
    ensures WrapAad(keyId) == WrapAad(keyId') <==> keyId == keyId'
    ensures PayloadAad(keyId, b) != WrapAad(keyId')
  {
    PartsArePipeFree(keyId, b);
    PartsArePipeFree(keyId', b');
    SplitJoin(PayloadParts(keyId, b));
    SplitJoin(PayloadParts(keyId', b'));
    SplitJoin(WrapParts(keyId));
    SplitJoin(WrapParts(keyId'));
    PartsDiffer(keyId, b, keyId', b');
  }

  lemma PartsDiffer(keyId: string, b: Binding, keyId': string, b': Binding)
    ensures PayloadParts(keyId, b) == PayloadParts(keyId', b') ==> keyId == keyId' && b == b'
    ensures WrapParts(keyId) == WrapParts(keyId') ==> keyId == keyId'
    ensures PayloadParts(keyId, b) != WrapParts(keyId')
  {
    var p, q := PayloadParts(keyId, b), PayloadParts(keyId', b');
    assert p[2] == keyId && p[3] == b.namespace && p[4] == b.group && p[5] == b.dataId;
    assert q[2] == keyId' && q[3] == b'.namespace && q[4] == b'.group && q[5] == b'.dataId;
    assert WrapParts(keyId)[2] == keyId && WrapParts(keyId')[2] == keyId';
    assert |p| == 6 && |WrapParts(keyId')| == 3;
  }

  /** The associated data as the envelope format fixes them. */
  lemma AadAsWritten(keyId: string, b: Binding)
    ensures WrapAad(keyId) == SCHEMA + "|" + "keywrap" + "|" + keyId
    ensures PayloadAad(keyId, b)
         == SCHEMA + "|" + "payload" + "|" + (keyId + "|" + b.namespace + "|" + b.group + "|" + b.dataId)
    ensures SCHEMA == "knowledge-core.io/config-envelope/v1"
  {
    JoinThree(SCHEMA, "keywrap", keyId);
    JoinSix(SCHEMA, "payload", keyId, b.namespace, b.group, b.dataId);
  }

  lemma JoinThree(a: string, b: string, c: string)
    ensures Join([a, b, c]) == a + "|" + b + "|" + c
  {
    JoinTwo(b, c);
    JoinCons(a, [b, c]);
  }

  lemma JoinSix(a: string, b: string, c: string, d: string, e: string, f: string)
    ensures Join([a, b, c, d, e, f]) == a + "|" + b + "|" + (c + "|" + d + "|" + e + "|" + f)
  {
    JoinThree(d, e, f);
    JoinCons(c, [d, e, f]);
    JoinCons(b, [c, d, e, f]);
    JoinCons(a, [b, c, d, e, f]);
  }

  lemma JoinTwo(a: string, b: string)
    ensures Join([a, b]) == a + "|" + b
  {
    assert [a, b][1..] == [b];
  }

  lemma {:induction false} JoinCons(a: string, rest: seq<string>)
    requires rest != []
    ensures Join([a] + rest) == a + "|" + Join(rest)
  {
    assert ([a] + rest)[1..] == rest;
  }

  ghost predicate SomethingVisible(s: string) {
    exists i :: 0 <= i < |s| && !IsSpace(s[i])
  }

  lemma {:induction false} TrimIsEmptyExactly(s: string)
    ensures Trim(s) != "" <==> SomethingVisible(s)
  {
    var left, right := TrimStrips(s);
    if Trim(s) == "" {
      assert forall i :: 0 <= i < |s| ==> s[i] == if i < |left| then left[i] else right[i - |left|];
    } else {
      assert s[|left|] == Trim(s)[0];
    }
  }

  /** A key id is accepted exactly when it shows something and holds no line break and no pipe. */
  lemma KeyIdAcceptedExactly(id: string)
    ensures ValidKeyId(id) <==> SomethingVisible(id) && forall c :: c in id ==> c != '\r' && c != '\n' && c != '|'
  {
    TrimIsEmptyExactly(id);
  }

  /** A line break at index `i` belongs to the space at one of the ends. */
  ghost predicate AtAnEnd(s: string, i: nat)
    requires i < |s|
  {
    (forall j :: 0 <= j <= i ==> IsSpace(s[j])) || (forall j :: i <= j < |s| ==> IsSpace(s[j]))
  }

  /** A part of a binding is accepted exactly when it shows something and holds no pipe anywhere and
      no line break except in the space around it. */
  lemma {:induction false} PartAcceptedExactly(s: string)
    ensures ValidPart(s) <==>
      && SomethingVisible(s) && '|' !in s
      && (forall i :: 0 <= i < |s| && (s[i] == '\r' || s[i] == '\n') ==> AtAnEnd(s, i))
  {
    TrimIsEmptyExactly(s);
    var left, right := TrimStrips(s);
    var core := Trim(s);
    var n, m := |left|, |left| + |core|;
    assert forall j :: 0 <= j < n ==> s[j] == left[j];
    assert forall j :: n <= j < m ==> s[j] == core[j - n];
    assert forall j :: m <= j < |s| ==> s[j] == right[j - m];
    if ValidPart(s) {
      ValidPartHasNoPipe(s);
      assert forall j :: n <= j < m ==> s[j] != '\r' && s[j] != '\n';
      forall i | 0 <= i < |s| && (s[i] == '\r' || s[i] == '\n') ensures AtAnEnd(s, i) {}
    }
    if core != "" && Unsupported(core) && '|' !in s {
      var k :| 0 <= k < |core| && (core[k] == '\r' || core[k] == '\n' || core[k] == '|');
      assert s[n + k] == core[k] && core[k] != '|';
      assert s[n] == core[0] && s[m - 1] == core[|core| - 1];
      assert !AtAnEnd(s, n + k);
    }
  }

  // ---------------------------------------------------------------------------------------
  // Sealing, with an ideal cipher: a sealed value opens for its key and associated data only
  // ---------------------------------------------------------------------------------------

  datatype Sealed = Sealed(key: Bytes, plaintext: Bytes, aad: string)

  function Open(key: Bytes, v: Sealed, aad: string): Option<Bytes> {
    if key == v.key && aad == v.aad then Some(v.plaintext) else None
  }

  datatype Envelope = Envelope(keyId: string, wrappedKey: Sealed, payload: Sealed)

  /** The padded form of section 4 of RFC 4648: four characters for every three bytes begun. */
  function Base64Length(n: nat): (r: nat)
    ensures r % 4 == 0 && 4 * n <= 3 * r < 4 * n + 12
  {
    4 * ((n + 2) / 3)
  }

  function SealedLength(v: Sealed): nat {
    Base64Length(NONCE_SIZE) + Base64Length(|v.plaintext| + TAG_SIZE)
  }

  /** The length of a character inside a JSON string, with the escapes of Go's encoder. */
  function JsonCharLength(c: char): nat {
    var n := c as int;
    if c == '\"' || c == '\\' || n == 0x08 || n == 0x0C || c == '\n' || c == '\r' || c == '\t' then 2
    else if n < 0x20 || c == '<' || c == '>' || c == '&' || n == 0x2028 || n == 0x2029 then 6
    else if n < 0x80 then 1
    else if n < 0x800 then 2
    else if n < 0x10000 then 3
    else 4
  }

  function JsonLength(s: string): nat {
    if s == [] then 0 else JsonCharLength(s[0]) + JsonLength(s[1..])
  }

  /** The names, quotes and braces of the encoded envelope, its schema and the final newline. */
  const FRAME := 144

  /** The encoded envelope around its five values. */
  function EncodedText(keyId: string, wrapNonce: string, wrapped: string, nonce: string, payload: string): string {
    "{\"schema\":\"" + SCHEMA + "\",\"key_id\":\"" + keyId
    + "\",\"wrapped_key\":{\"nonce\":\"" + wrapNonce + "\",\"ciphertext\":\"" + wrapped
    + "\"},\"payload\":{\"nonce\":\"" + nonce + "\",\"ciphertext\":\"" + payload + "\"}}\n"
  }

  lemma FrameIsCounted(keyId: string, wrapNonce: string, wrapped: string, nonce: string, payload: string)
    ensures |EncodedText(keyId, wrapNonce, wrapped, nonce, payload)|
         == FRAME + |keyId| + |wrapNonce| + |wrapped| + |nonce| + |payload|
  {}

  /** A character as Go's encoder writes it into a string. */
  function JsonChar(c: char): string {
    if c == '\"' then "\\\""
    else if c == '\\' then "\\\\"
    else if c == '\n' then "\\n"
    else if c == '\r' then "\\r"
    else if c == '\t' then "\\t"
    else if c as int == 0x08 then "\\b"
    else if c as int == 0x0C then "\\f"
    else if c as int < 0x20 || c in {'<', '>', '&'} || c as int in {0x2028, 0x2029} then "\\u" + Hex4(c as int)
    else [c]
  }

  function HexDigit(n: int): char
    requires 0 <= n < 16
  {
    "0123456789abcdef"[n]
  }

  function Hex4(n: int): string {
    var m := if 0 <= n < 0x10000 then n else 0;
    [HexDigit(m / 0x1000), HexDigit(m / 0x100 % 0x10), HexDigit(m / 0x10 % 0x10), HexDigit(m % 0x10)]
  }

  function JsonText(s: string): string {
    if s == [] then [] else JsonChar(s[0]) + JsonText(s[1..])
  }

  lemma {:induction false} BytesOfSum(a: string, b: string)
    ensures ByteLength(a + b) == ByteLength(a) + ByteLength(b)
  {
    if a == [] {
      assert a + b == b;
    } else {
      BytesOfSum(a[1..], b);
      assert (a + b)[1..] == a[1..] + b;
    }
  }

  lemma HexIsPlain(n: int)
    ensures forall i :: 0 <= i < |Hex4(n)| ==> Hex4(n)[i] < 128 as char
  {
    assert forall m :: 0 <= m < 16 ==> HexDigit(m) < 128 as char;
  }

  lemma EscapeIsCounted(c: char)
    requires |JsonChar(c)| > 1
    ensures ByteLength(JsonChar(c)) == |JsonChar(c)| == JsonCharLength(c)
  {
    HexIsPlain(c as int);
    ShortText(JsonChar(c));
  }

  lemma JsonCharIsCounted(c: char)
    ensures ByteLength(JsonChar(c)) == JsonCharLength(c)
  {
    if |JsonChar(c)| > 1 {
      EscapeIsCounted(c);
    } else {
      assert JsonChar(c) == [c] && [c][1..] == [];
    }
  }

  /** The length of a key id inside the envelope is that of its escaped text. */
  lemma {:induction false} JsonTextIsCounted(s: string)
    ensures ByteLength(JsonText(s)) == JsonLength(s)
  {
    if s != [] {
      JsonTextIsCounted(s[1..]);
      JsonCharIsCounted(s[0]);
      BytesOfSum(JsonChar(s[0]), JsonText(s[1..]));
    }
  }

  function EncodedLength(e: Envelope): nat {
    FRAME + JsonLength(e.keyId) + SealedLength(e.wrappedKey) + SealedLength(e.payload)
  }

  lemma {:induction false} JsonLengthBound(s: string)
    ensures JsonLength(s) <= 6 * ByteLength(s)
  {
    if s != [] {
      JsonLengthBound(s[1..]);
    }
  }

  // ---------------------------------------------------------------------------------------
  // Encrypting and decrypting
  // ---------------------------------------------------------------------------------------

  predicate ValidInputs(plaintext: Bytes, key: Bytes, keyId: string, b: Binding) {
    0 < |plaintext| <= MAXIMUM && |key| == KEY_SIZE && ValidKeyId(keyId) && ValidBinding(b)
  }

  /** `dataKey` is the random data key. */
  function Encrypt(plaintext: Bytes, key: Bytes, keyId: string, b: Binding, dataKey: Bytes): Option<Envelope> {
    if !ValidInputs(plaintext, key, keyId, b) then None
    else
      Some(Envelope(keyId,
                    Sealed(key, dataKey, WrapAad(keyId)),
                    Sealed(dataKey, plaintext, PayloadAad(keyId, b))))
  }

  function Decrypt(e: Envelope, key: Bytes, expectedKeyId: string, b: Binding): Option<Bytes> {
    if EncodedLength(e) > 2 * MAXIMUM || |key| != KEY_SIZE || !ValidBinding(b) then None
    else if e.keyId == "" || e.keyId != expectedKeyId then None
    else
      match Open(key, e.wrappedKey, WrapAad(e.keyId))
      case None => None
      case Some(dataKey) =>
        if |dataKey| != KEY_SIZE then None
        else
          match Open(dataKey, e.payload, PayloadAad(e.keyId, b))
          case None => None
          case Some(plaintext) => if 0 < |plaintext| <= MAXIMUM then Some(plaintext) else None
  }

  /** The size limits of the two directions differ: encrypting never looks at the length of the
      key id, decrypting bounds the whole envelope. */
  predicate FitsEnvelope(plaintext: Bytes, keyId: string) {
    FRAME + JsonLength(keyId) + 2 * Base64Length(NONCE_SIZE)
    + Base64Length(KEY_SIZE + TAG_SIZE) + Base64Length(|plaintext| + TAG_SIZE) <= 2 * MAXIMUM
  }

  /** An envelope gives its plaintext back exactly to a holder of the same key who asks with the
      same key id and the same binding, provided it is within the size limit; to anyone else it
      gives nothing. */
  lemma DecryptsExactly(plaintext: Bytes, key: Bytes, keyId: string, b: Binding, dataKey: Bytes,
                        key': Bytes, keyId': string, b': Binding)
    requires ValidInputs(plaintext, key, keyId, b) && |dataKey| == KEY_SIZE
    ensures Decrypt(Encrypt(plaintext, key, keyId, b, dataKey).value, key', keyId', b')
         == if FitsEnvelope(plaintext, keyId) && key' == key && keyId' == keyId && b' == b
            then Some(plaintext) else None
  {
    var e := Encrypt(plaintext, key, keyId, b, dataKey).value;
    assert keyId != "" by { assert Trim("") == ""; }
    assert EncodedLength(e) <= 2 * MAXIMUM <==> FitsEnvelope(plaintext, keyId);
    if keyId' == keyId && ValidBinding(b') {
      AadIsInjective(keyId, b, keyId, b');
    }
  }

  /** Every key id of at most 65536 bytes is within the limit, with any plaintext. */
  lemma OrdinaryKeyIdFits(plaintext: Bytes, keyId: string)
    requires |plaintext| <= MAXIMUM && ByteLength(keyId) <= 65536
    ensures FitsEnvelope(plaintext, keyId)
  {
    JsonLengthBound(keyId);
    assert Base64Length(|plaintext| + TAG_SIZE) <= 1_398_124;
    assert Base64Length(NONCE_SIZE) == 16 && Base64Length(KEY_SIZE + TAG_SIZE) == 64;
  }

  lemma {:induction false} PlainJsonLength(s: string)
    requires forall i :: 0 <= i < |s| ==> s[i] == 'k'
    ensures JsonLength(s) == |s|
  {
    if s != [] {
      PlainJsonLength(s[1..]);
    }
  }

  const ENDLESS_KEY_ID: string := seq(2 * MAXIMUM, _ => 'k')

  /** No such limit guards encryption: under a key id of 2 MiB of letters any plaintext is
      accepted, and the envelope opens for no key, no key id and no binding. */
  lemma EndlessKeyIdLocksOut(plaintext: Bytes, key: Bytes, b: Binding, dataKey: Bytes,
                             key': Bytes, keyId': string, b': Binding)
    requires 0 < |plaintext| <= MAXIMUM && |key| == KEY_SIZE && ValidBinding(b) && |dataKey| == KEY_SIZE
    ensures ValidInputs(plaintext, key, ENDLESS_KEY_ID, b)
    ensures Decrypt(Encrypt(plaintext, key, ENDLESS_KEY_ID, b, dataKey).value, key', keyId', b') == None
  {
    TrimKeepsExactly(ENDLESS_KEY_ID);
    PlainJsonLength(ENDLESS_KEY_ID);
    DecryptsExactly(plaintext, key, ENDLESS_KEY_ID, b, dataKey, key', keyId', b');
  }

  /** Encryption accepts 1 byte to 1 MiB under a key of 32 bytes, an acceptable key id and binding. */
  lemma EncryptAcceptsExactly(plaintext: Bytes, key: Bytes, keyId: string, b: Binding, dataKey: Bytes)
    ensures Encrypt(plaintext, key, keyId, b, dataKey).Some? <==>
      && 1 <= |plaintext| <= 1_048_576 && |key| == 32
      && SomethingVisible(keyId) && (forall c :: c in keyId ==> c != '\r' && c != '\n' && c != '|')
      && ValidPart(b.namespace) && ValidPart(b.group) && ValidPart(b.dataId)
  {
    KeyIdAcceptedExactly(keyId);
  }

  /** The limit of decryption in numbers: 2 MiB for the envelope, of which 144 bytes are frame, 16 each
      nonce and 64 the wrapped key. */
  lemma LimitInNumbers(plaintext: Bytes, keyId: string)
    ensures FitsEnvelope(plaintext, keyId) <==>
      144 + JsonLength(keyId) + 32 + 64 + Base64Length(|plaintext| + 16) <= 2_097_152
  {}

  /** Decryption gives out exactly what was sealed for the caller: the envelope is within the limit
      and names the caller's key id, its data key of 32 bytes was wrapped by the caller's key for
      that key id, and the plaintext of 1 byte to 1 MiB was sealed by the data key for that key id
      and the caller's binding. */
  lemma DecryptAcceptsExactly(e: Envelope, key: Bytes, keyId: string, b: Binding, plaintext: Bytes)
    ensures Decrypt(e, key, keyId, b) == Some(plaintext) <==>
      && EncodedLength(e) <= 2_097_152 && |key| == 32
      && ValidPart(b.namespace) && ValidPart(b.group) && ValidPart(b.dataId)
      && keyId != "" && e.keyId == keyId
      && e.wrappedKey.key == key && e.wrappedKey.aad == WrapAad(keyId) && |e.wrappedKey.plaintext| == 32
      && e.payload == Sealed(e.wrappedKey.plaintext, plaintext, PayloadAad(keyId, b))
      && 1 <= |plaintext| <= 1_048_576
  {}
}

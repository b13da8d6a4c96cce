/** Application errors: a catalog definition inside any chain of wrapped errors, its crossing of
    the RPC boundary as a business status, and its problem document. */
module AppError {
  import opened Text
  import opened Wrappers

  // ---------------------------------------------------------------------------------------
  // Keys: a lower-case letter, then letters and digits in groups joined by one of '.', '_', '-'
  // ---------------------------------------------------------------------------------------

  predicate Lower(c: char) { 'a' <= c <= 'z' }

  predicate WordChar(c: char) { Lower(c) || '0' <= c <= '9' }

  predicate Separator(c: char) { c == '.' || c == '_' || c == '-' }

  /** The rest of a key, behind a character of a group or behind a separator. */
  predicate KeyRest(s: string, inGroup: bool) {
    if s == [] then inGroup
    else if WordChar(s[0]) then KeyRest(s[1..], true)
    else inGroup && Separator(s[0]) && KeyRest(s[1..], false)
  }

  predicate ValidKey(s: string) {
    s != [] && Lower(s[0]) && KeyRest(s[1..], true)
  }

  lemma {:induction false} KeyEndsInWord(s: string, inGroup: bool)
    requires KeyRest(s, inGroup) && s != []
    ensures WordChar(s[|s| - 1])
  {
    if |s| > 1 {
      KeyEndsInWord(s[1..], WordChar(s[0]));
    }
  }

  lemma ValidKeyIsTrimmed(s: string)
    requires ValidKey(s)
    ensures Trimmed(s)
  {
    if |s| > 1 {
      KeyEndsInWord(s[1..], true);
    }
  }

  // ---------------------------------------------------------------------------------------
  // Definitions
  // ---------------------------------------------------------------------------------------

  datatype Definition = Definition(code: int, key: string, kind: string, message: string)

  const INTERNAL := Definition(20999, "common.internal", "internal", "internal server error")

  const MAX_MESSAGE := 256

  predicate ValidKind(k: string) {
    || k == "invalid_argument" || k == "unauthenticated" || k == "permission_denied" || k == "not_found"
    || k == "conflict" || k == "rate_limited" || k == "deadline_exceeded" || k == "unavailable"
    || k == "unimplemented" || k == "internal"
  }

  predicate FitsMessage(m: string) {
    m != "" && ByteLength(m) <= MAX_MESSAGE && OneLine(m)
  }

  predicate Valid(d: Definition) {
    d.code > 0 && ValidKey(d.key) && ValidKind(d.kind) && FitsMessage(d.message)
  }

  function Define(code: int, key: string, kind: string, message: string): Option<Definition> {
    var d := Definition(code, Trim(key), kind, Trim(message));
    if Valid(d) then Some(d) else None
  }

  /** What `Define` accepts is valid and trimmed, and defining it again gives it back. */
  lemma DefineIsIdempotent(code: int, key: string, kind: string, message: string)
    ensures var r := Define(code, key, kind, message);
      r.Some? ==> && Valid(r.value) && Trimmed(r.value.message)
                  && Define(r.value.code, r.value.key, r.value.kind, r.value.message) == r
  {
    TrimGivesTrimmed(key);
    TrimGivesTrimmed(message);
    TrimKeepsExactly(Trim(key));
    TrimKeepsExactly(Trim(message));
  }

  lemma TrimmedMessageFits(m: string)
    requires FitsMessage(m) && Trim(m) != ""
    ensures FitsMessage(Trim(m))
  {
    var lo, hi := TrimIsSlice(m);
    ByteLengthOfSlice(m, lo, hi);
  }

  // ---------------------------------------------------------------------------------------
  // Error chains
  // ---------------------------------------------------------------------------------------

  /** The names under which extras travel. */
  datatype ExtraKey = ErrorKey | ErrorKind | RequestId | TraceId | RetryAfter | OtherKey(name: string)

  type Extra = map<ExtraKey, string>

  /** Any error: a foreign one around any number of others, a definition used as an error, an
      application error, a typed nil pointer to one, or a business status. A status built here
      keeps the error it came from; one that came over the wire has none. */
  datatype Error =
    | Foreign(wrapped: seq<Error>)
    | Catalog(definition: Definition)
    | App(definition: Definition, cause: seq<Error>, extra: Extra)
    | NilApp
    | Status(code: int, message: string, extra: Extra, origin: seq<Error>)

  /** The first definition in the chain, depth first. */
  function FindDefinition(e: Error): Option<Definition>
    decreases e, 0
  {
    match e
    case Foreign(es) => FindDefinitionIn(es)
    case Catalog(d) => Some(d)
    case App(d, _, _) => Some(d)
    case NilApp => None
    case Status(_, _, _, es) => FindDefinitionIn(es)
  }

  function FindDefinitionIn(es: seq<Error>): Option<Definition>
    decreases es, 1
  {
    if es == [] then None
    else
      var r := FindDefinition(es[0]);
      if r.Some? then r else FindDefinitionIn(es[1..])
  }

  /** The first application error in the chain; its extras are all that is asked of it. */
  function FindApp(e: Error): Option<Extra>
    decreases e, 0
  {
    match e
    case Foreign(es) => FindAppIn(es)
    case Catalog(_) => None
    case App(_, _, extra) => Some(extra)
    case NilApp => Some(map[])
    case Status(_, _, _, es) => FindAppIn(es)
  }

  function FindAppIn(es: seq<Error>): Option<Extra>
    decreases es, 1
  {
    if es == [] then None
    else
      var r := FindApp(es[0]);
      if r.Some? then r else FindAppIn(es[1..])
  }

  function ExtrasOf(e: Error): Extra {
    var r := FindApp(e);
    if r.Some? then r.value else map[]
  }

  function Get(extra: Extra, key: ExtraKey): string {
    if key in extra then extra[key] else ""
  }

  /** Extras reach an application error only through the allowlist. */
  function CopySafeExtra(src: Extra): (extra: Extra)
    ensures extra.Keys <= {RetryAfter}
    ensures Get(extra, RetryAfter) == Trim(Get(src, RetryAfter))
    ensures RetryAfter in extra ==> extra[RetryAfter] != ""
  {
    if RetryAfter in src && Trim(src[RetryAfter]) != "" then map[RetryAfter := Trim(src[RetryAfter])] else map[]
  }

  /** Every application error in the chain was built by this package. */
  ghost predicate SafeExtras(e: Error)
    decreases e, 0
  {
    match e
    case Foreign(es) => forall i :: 0 <= i < |es| ==> SafeExtras(es[i])
    case App(_, es, extra) => extra.Keys <= {RetryAfter}
    case Status(_, _, _, es) => forall i :: 0 <= i < |es| ==> SafeExtras(es[i])
    case _ => true
  }

  lemma {:induction false} FoundExtrasAreSafe(e: Error)
    requires SafeExtras(e)
    ensures ExtrasOf(e).Keys <= {RetryAfter}
    decreases e, 0
  {
    match e
    case Foreign(es) => FoundExtrasInAreSafe(es);
    case Status(_, _, _, es) => FoundExtrasInAreSafe(es);
    case _ =>
  }

  lemma {:induction false} FoundExtrasInAreSafe(es: seq<Error>)
    requires forall i :: 0 <= i < |es| ==> SafeExtras(es[i])
    ensures var r := FindAppIn(es); r.Some? ==> r.value.Keys <= {RetryAfter}
    decreases es, 1
  {
    if es != [] {
      FoundExtrasAreSafe(es[0]);
      FoundExtrasInAreSafe(es[1..]);
    }
  }

  function Details(e: Error): Option<Definition> {
    var r := FindDefinition(e);
    if r.Some? && Valid(r.value) then r else None
  }

  /** The definition that crosses a transport boundary for `e`. */
  function Public(e: Error): Definition {
    var r := Details(e);
    if r.Some? then r.value else INTERNAL
  }

  lemma InternalMessageFits()
    ensures FitsMessage(INTERNAL.message) && Trimmed(INTERNAL.message)
  {
    PlainMessageFits(INTERNAL.message);
  }

  lemma PlainMessageFits(m: string)
    requires 0 < |m| <= MAX_MESSAGE && forall i :: 0 <= i < |m| ==> 31 as char < m[i] < 128 as char
    requires m[0] != ' ' && m[|m| - 1] != ' '
    ensures FitsMessage(m) && Trimmed(m)
  {
    ShortText(m);
  }

  lemma InternalKeyIsValid()
    ensures ValidKey(INTERNAL.key)
  {
    TwoWordKey("common", "internal");
    assert "common" + ['.'] + "internal" == INTERNAL.key;
  }

  ghost predicate Word(s: string) {
    s != [] && forall i :: 0 <= i < |s| ==> WordChar(s[i])
  }

  lemma TwoWordKey(first: string, second: string)
    requires |first| > 1 && Lower(first[0]) && Word(first) && Word(second)
    ensures ValidKey(first + ['.'] + second)
  {
    WordThen(second, [], false);
    assert second + [] == second;
    var tail := ['.'] + second;
    assert tail[1..] == second;
    WordThen(first[1..], tail, true);
    assert (first + ['.'] + second)[1..] == first[1..] + tail;
  }

  lemma InternalIsValid()
    ensures Valid(INTERNAL) && Trimmed(INTERNAL.message)
  {
    InternalMessageFits();
    InternalKeyIsValid();
  }

  /** A run of word characters in front of the rest of a key. */
  lemma {:induction false} WordThen(word: string, rest: string, inGroup: bool)
    requires Word(word) && KeyRest(rest, true)
    ensures KeyRest(word + rest, inGroup)
  {
    assert (word + rest)[1..] == word[1..] + rest;
    if |word| > 1 {
      WordThen(word[1..], rest, true);
    } else {
      assert word[1..] + rest == rest;
    }
  }

  // ---------------------------------------------------------------------------------------
  // The RPC boundary
  // ---------------------------------------------------------------------------------------

  datatype Context = Context(requestId: string, traceId: string)

  function BaseExtra(ctx: Context, d: Definition): Extra {
    map[ErrorKey := d.key, ErrorKind := d.kind]
    + (if ctx.requestId != "" then map[RequestId := ctx.requestId] else map[])
    + (if ctx.traceId != "" then map[TraceId := ctx.traceId] else map[])
  }

  function ToBizStatus(ctx: Context, e: Error): Error {
    var d := Public(e);
    Status(d.code, d.message, BaseExtra(ctx, d) + ExtrasOf(e), [e])
  }

  /** The status as the program builds it: the extras of the application error are copied entry
      by entry, in whatever order the map yields them. */
  method BuildBizStatus(ctx: Context, e: Error) returns (status: Error)
    ensures status == ToBizStatus(ctx, e)
  {
    var d := Public(e);
    var extra := map[ErrorKey := d.key, ErrorKind := d.kind];
    if ctx.requestId != "" {
      extra := extra[RequestId := ctx.requestId];
    }
    if ctx.traceId != "" {
      extra := extra[TraceId := ctx.traceId];
    }
    assert extra == BaseExtra(ctx, d);
    extra := CopyAll(extra, ExtrasOf(e));
    status := Status(d.code, d.message, extra, [e]);
  }

  method CopyAll(into: Extra, source: Extra) returns (extra: Extra)
    ensures extra == into + source
  {
    extra := into;
    var left := source.Keys;
    CopyEnds(into, source);
    while left != {}
      invariant left <= source.Keys
      invariant extra == into + (source - left)
      decreases |left|
    {
      var key :| key in left;
      CopyOne(into, source, left, key);
      extra := extra[key := source[key]];
      left := left - {key};
    }
  }

  lemma CopyEnds(into: Extra, source: Extra)
    ensures into + (source - source.Keys) == into && into + (source - {}) == into + source
  {
    assert source - source.Keys == map[] && source - {} == source;
  }

  lemma CopyOne(into: Extra, source: Extra, left: set<ExtraKey>, key: ExtraKey)
    requires key in left && left <= source.Keys
    ensures (into + (source - left))[key := source[key]] == into + (source - (left - {key}))
  {
    assert (source - left)[key := source[key]] == source - (left - {key});
  }

  /** What is left of a status on the other side. */
  function Wire(e: Error): Error
    requires e.Status?
  {
    e.(origin := [])
  }

  function FromBizStatus(e: Error): Option<Definition>
    requires e.Status?
  {
    Define(e.code, Get(e.extra, ErrorKey), Get(e.extra, ErrorKind), e.message)
  }

  lemma PublicIsValid(e: Error)
    ensures Valid(Public(e))
  {
    InternalIsValid();
  }

  /** Rebuilding from the wire gives the definition with its message trimmed, or nothing when the
      message is blank. It gives the definition itself exactly when its message is trimmed, as
      every message that went through `Define` is; and always for an unknown error. */
  lemma DefinitionSurvivesExactly(ctx: Context, e: Error)
    requires SafeExtras(e)
    ensures var d, r := Public(e), FromBizStatus(Wire(ToBizStatus(ctx, e)));
      && r == (if Trim(d.message) == "" then None else Some(d.(message := Trim(d.message))))
      && (r == Some(d) <==> Trimmed(d.message))
      && (Details(e).None? ==> r == Some(INTERNAL))
  {
    var d := Public(e);
    PublicIsValid(e);
    InternalMessageFits();
    FoundExtrasAreSafe(e);
    ExtrasCarry(ctx, d, ExtrasOf(e));
    RedefineValid(d);
    TrimKeepsExactly(d.message);
  }

  lemma ExtrasCarry(ctx: Context, d: Definition, extra: Extra)
    requires extra.Keys <= {RetryAfter}
    ensures Get(BaseExtra(ctx, d) + extra, ErrorKey) == d.key
    ensures Get(BaseExtra(ctx, d) + extra, ErrorKind) == d.kind
  {}

  /** Defining the fields of a valid definition again trims its message, and does nothing else. */
  lemma RedefineValid(d: Definition)
    requires Valid(d)
    ensures Define(d.code, d.key, d.kind, d.message)
         == if Trim(d.message) == "" then None else Some(d.(message := Trim(d.message)))
  {
    ValidKeyIsTrimmed(d.key);
    TrimKeepsExactly(d.key);
    if Trim(d.message) != "" {
      TrimmedMessageFits(d.message);
    }
  }

  /** A catalog entry written by hand with a padded message is accepted, but comes back changed. */
  lemma PaddedMessageChanges(ctx: Context)
    ensures var d := Definition(1, "a", "internal", " x");
      Valid(d) && FromBizStatus(Wire(ToBizStatus(ctx, Catalog(d)))) != Some(d)
  {
    var d := Definition(1, "a", "internal", " x");
    assert ByteLength(" x") <= 256 by { ShortText(" x"); }
    assert Valid(d);
    DefinitionSurvivesExactly(ctx, Catalog(d));
  }

  /** Converting a status that was converted before gives the same status fields. */
  lemma ConvertingTwice(ctx: Context, e: Error)
    ensures Wire(ToBizStatus(ctx, ToBizStatus(ctx, e))) == Wire(ToBizStatus(ctx, e))
  {
    FindInSingle(e);
  }

  lemma FindInSingle(e: Error)
    ensures FindDefinitionIn([e]) == FindDefinition(e) && FindAppIn([e]) == FindApp(e)
  {
    assert [e][1..] == [];
    assert FindDefinitionIn([]) == None && FindAppIn([]) == None;
  }

  // ---------------------------------------------------------------------------------------
  // Problem documents
  // ---------------------------------------------------------------------------------------

  datatype Problem = Problem(
    typ: string, title: string, status: int, detail: string, code: int, key: string,
    requestId: string, traceId: string, retryAfter: string)

  function HttpStatus(kind: string): int {
    if kind == "invalid_argument" then 400
    else if kind == "unauthenticated" then 401
    else if kind == "permission_denied" then 403
    else if kind == "not_found" then 404
    else if kind == "conflict" then 409
    else if kind == "rate_limited" then 429
    else if kind == "deadline_exceeded" then 504
    else if kind == "unavailable" then 503
    else if kind == "unimplemented" then 501
    else 500
  }

  function StatusText(status: int): string {
    match status
    case 400 => "Bad Request"
    case 401 => "Unauthorized"
    case 403 => "Forbidden"
    case 404 => "Not Found"
    case 409 => "Conflict"
    case 429 => "Too Many Requests"
    case 500 => "Internal Server Error"
    case 501 => "Not Implemented"
    case 503 => "Service Unavailable"
    case 504 => "Gateway Timeout"
    case _ => ""
  }

  function ToProblem(ctx: Context, e: Error): Problem {
    var d := Public(e);
    var status := HttpStatus(d.kind);
    Problem("urn:knowledge-core:problem:" + d.key, StatusText(status), status, d.message, d.code, d.key,
            ctx.requestId, ctx.traceId, Get(ExtrasOf(e), RetryAfter))
  }

  /** The members of section 3.1 of RFC 9457 that are used, and the stable extensions. */
  ghost predicate SameProblem(p: Problem, q: Problem) {
    && p.typ == q.typ && p.title == q.title && p.status == q.status && p.detail == q.detail
    && p.code == q.code && p.key == q.key
  }

  /** A client that rebuilds the definition from the wire shows the same problem as the server
      would have shown, exactly when the message is trimmed. */
  lemma SameProblemOnBothSides(ctx: Context, other: Context, e: Error)
    requires SafeExtras(e)
    ensures var r := FromBizStatus(Wire(ToBizStatus(ctx, e)));
      (r.Some? && SameProblem(ToProblem(ctx, e), ToProblem(other, Catalog(r.value)))) <==> Trimmed(Public(e).message)
  {
    DefinitionSurvivesExactly(ctx, e);
    PublicIsValid(e);
    var d, r := Public(e), FromBizStatus(Wire(ToBizStatus(ctx, e)));
    RedefineValid(d);
    if r.Some? {
      PublicOfDefined(d, r.value);
      ProblemShowsDefinition(ctx, e);
      ProblemShowsDefinition(other, Catalog(r.value));
      SameDefinitionSameProblem(ctx, e, other, Catalog(r.value));
    }
  }

  lemma PublicOfDefined(d: Definition, r: Definition)
    requires Valid(d) && Some(r) == Define(d.code, d.key, d.kind, d.message)
    ensures Public(Catalog(r)) == r
  {}

  lemma ProblemShowsDefinition(ctx: Context, e: Error)
    ensures ToProblem(ctx, e).detail == Public(e).message
  {}

  lemma SameDefinitionSameProblem(ctx: Context, e: Error, other: Context, f: Error)
    ensures Public(e) == Public(f) ==> SameProblem(ToProblem(ctx, e), ToProblem(other, f))
  {}
}

/** What a client sees of an application error, whatever wraps it, and what `Define` accepts. */
module AppErrorTheorems {
  import opened Wrappers
  import opened Text
  import opened AppError

  // ---------------------------------------------------------------------------------------
  // Searching a chain
  // ---------------------------------------------------------------------------------------

  /** A chain is searched for a definition, and for an application error with its extras. */
  datatype Search = ForDefinition | ForApp

  /** The error itself answers the search. A nil application error ends the search for extras. */
  predicate Answers(q: Search, e: Error) {
    match q
    case ForDefinition => e.Catalog? || e.App?
    case ForApp => e.App? || e.NilApp?
  }

  /** Neither the error nor anything it wraps answers. */
  ghost predicate Silent(q: Search, e: Error)
    decreases e, 0
  {
    && !Answers(q, e)
    && match e
       case Foreign(es) => forall i :: 0 <= i < |es| ==> Silent(q, es[i])
       case Status(_, _, _, es) => forall i :: 0 <= i < |es| ==> Silent(q, es[i])
       case _ => true
  }

  /** The error is `inner`, or wraps it at any depth with nothing in front that answers. */
  ghost predicate Wraps(q: Search, e: Error, inner: Error)
    decreases e, 0
  {
    || e == inner
    || match e
       case Foreign(es) => WrapsIn(q, es, inner)
       case Status(_, _, _, es) => WrapsIn(q, es, inner)
       case _ => false
  }

  ghost predicate WrapsIn(q: Search, es: seq<Error>, inner: Error)
    decreases es, 1
  {
    es != [] && (Wraps(q, es[0], inner) || (Silent(q, es[0]) && WrapsIn(q, es[1..], inner)))
  }

  /** What the searches find when `inner` answers. */
  ghost predicate Finds(q: Search, d: Option<Definition>, x: Option<Extra>, inner: Error) {
    match q
    case ForDefinition => (inner.Catalog? || inner.App?) && d == Some(inner.definition)
    case ForApp => x == Some(if inner.App? then inner.extra else map[])
  }

  ghost predicate FindsNothing(q: Search, d: Option<Definition>, x: Option<Extra>) {
    match q
    case ForDefinition => d == None
    case ForApp => x == None
  }

  lemma {:induction false} SilentFindsNothing(q: Search, e: Error)
    requires Silent(q, e)
    ensures FindsNothing(q, FindDefinition(e), FindApp(e))
    decreases e, 0
  {
    match e
    case Foreign(es) => SilentFindsNothingIn(q, es);
    case Status(_, _, _, es) => SilentFindsNothingIn(q, es);
    case _ =>
  }

  lemma {:induction false} SilentFindsNothingIn(q: Search, es: seq<Error>)
    requires forall i :: 0 <= i < |es| ==> Silent(q, es[i])
    ensures FindsNothing(q, FindDefinitionIn(es), FindAppIn(es))
    decreases es, 1
  {
    if es != [] {
      SilentFindsNothing(q, es[0]);
      SilentFindsNothingIn(q, es[1..]);
    }
  }

  /** The search through a chain finds the outermost error that answers it, not its cause. */
  lemma {:induction false} WrappedIsFound(q: Search, e: Error, inner: Error)
    requires Answers(q, inner) && Wraps(q, e, inner)
    ensures Finds(q, FindDefinition(e), FindApp(e), inner)
    decreases e, 0
  {
    if e != inner {
      match e
      case Foreign(es) => WrappedIsFoundIn(q, es, inner);
      case Status(_, _, _, es) => WrappedIsFoundIn(q, es, inner);
    }
  }

  lemma {:induction false} WrappedIsFoundIn(q: Search, es: seq<Error>, inner: Error)
    requires Answers(q, inner) && WrapsIn(q, es, inner)
    ensures Finds(q, FindDefinitionIn(es), FindAppIn(es), inner)
    decreases es, 1
  {
    if Wraps(q, es[0], inner) {
      WrappedIsFound(q, es[0], inner);
    } else {
      SilentFindsNothing(q, es[0]);
      WrappedIsFoundIn(q, es[1..], inner);
    }
  }

  // ---------------------------------------------------------------------------------------
  // What a client sees
  // ---------------------------------------------------------------------------------------

  /** The status and the problem document show the definition `d`. */
  ghost predicate Shows(ctx: Context, e: Error, d: Definition) {
    var status, problem := ToBizStatus(ctx, e), ToProblem(ctx, e);
    && status.code == d.code && status.message == d.message
    && Get(status.extra, ErrorKey) == d.key && Get(status.extra, ErrorKind) == d.kind
    && problem.typ == "urn:knowledge-core:problem:" + d.key
    && problem.detail == d.message && problem.code == d.code && problem.key == d.key
  }

  /** Both transports show the outermost definition of a chain if it is valid, whatever causes lie
      behind it; and they show the internal error if it is not, or if there is none. */
  lemma ShowsOutermost(ctx: Context, e: Error, inner: Error)
    requires SafeExtras(e)
    ensures (inner.Catalog? || inner.App?) && Wraps(ForDefinition, e, inner) ==>
      Shows(ctx, e, if Valid(inner.definition) then inner.definition else INTERNAL)
    ensures Silent(ForDefinition, e) ==> Shows(ctx, e, INTERNAL)
  {
    if (inner.Catalog? || inner.App?) && Wraps(ForDefinition, e, inner) {
      WrappedIsFound(ForDefinition, e, inner);
    }
    if Silent(ForDefinition, e) {
      SilentFindsNothing(ForDefinition, e);
    }
    ShowsPublic(ctx, e);
  }

  lemma ShowsPublic(ctx: Context, e: Error)
    requires SafeExtras(e)
    ensures Shows(ctx, e, Public(e))
  {
    FoundExtrasAreSafe(e);
    ExtrasCarry(ctx, Public(e), ExtrasOf(e));
  }

  /** The internal error says nothing about what went wrong. */
  lemma InternalSaysNothing()
    ensures INTERNAL.code == 20999 && INTERNAL.key == "common.internal" && INTERNAL.kind == "internal"
    ensures INTERNAL.message == "internal server error"
  {}

  /** An error whose outermost definition comes from `Define` returns from the wire as that definition. */
  lemma DefinedErrorSurvives(
    ctx: Context, e: Error, inner: Error, code: int, key: string, kind: string, message: string)
    requires SafeExtras(e) && (inner.Catalog? || inner.App?) && Wraps(ForDefinition, e, inner)
    requires Define(code, key, kind, message) == Some(inner.definition)
    ensures FromBizStatus(Wire(ToBizStatus(ctx, e))) == Some(inner.definition)
  {
    WrappedIsFound(ForDefinition, e, inner);
    DefineIsIdempotent(code, key, kind, message);
    DefinitionSurvivesExactly(ctx, e);
  }

  /** A retry-after value given to an application error reaches the RPC status and the problem
      document trimmed, through any errors that wrap it, and no other extra does. */
  lemma RetryAfterArrives(ctx: Context, d: Definition, cause: seq<Error>, src: Extra, e: Error)
    requires Wraps(ForApp, e, App(d, cause, CopySafeExtra(src)))
    ensures Get(ToBizStatus(ctx, e).extra, RetryAfter) == Trim(Get(src, RetryAfter))
    ensures ToProblem(ctx, e).retryAfter == Trim(Get(src, RetryAfter))
    ensures ToBizStatus(ctx, e).extra.Keys <= {ErrorKey, ErrorKind, RequestId, TraceId, RetryAfter}
  {
    WrappedIsFound(ForApp, e, App(d, cause, CopySafeExtra(src)));
    assert RetryAfter !in BaseExtra(ctx, Public(e));
  }

  /** A nil application error in front hides the extras of those behind it. */
  lemma NilHidesExtras(ctx: Context, e: Error)
    requires Wraps(ForApp, e, NilApp)
    ensures RetryAfter !in ToBizStatus(ctx, e).extra && ToProblem(ctx, e).retryAfter == ""
  {
    WrappedIsFound(ForApp, e, NilApp);
    assert RetryAfter !in BaseExtra(ctx, Public(e));
  }

  /** The identifiers of the request travel with the error, and only those that there are. */
  lemma IdentifiersTravel(ctx: Context, e: Error)
    requires SafeExtras(e)
    ensures var extra := ToBizStatus(ctx, e).extra;
      && (RequestId in extra <==> ctx.requestId != "") && Get(extra, RequestId) == ctx.requestId
      && (TraceId in extra <==> ctx.traceId != "") && Get(extra, TraceId) == ctx.traceId
    ensures ToProblem(ctx, e).requestId == ctx.requestId && ToProblem(ctx, e).traceId == ctx.traceId
  {
    FoundExtrasAreSafe(e);
    BaseHoldsIdentifiers(ctx, Public(e));
  }

  lemma BaseHoldsIdentifiers(ctx: Context, d: Definition)
    ensures var extra := BaseExtra(ctx, d);
      && (RequestId in extra <==> ctx.requestId != "") && Get(extra, RequestId) == ctx.requestId
      && (TraceId in extra <==> ctx.traceId != "") && Get(extra, TraceId) == ctx.traceId
  {}

  /** The status of the problem document for each kind of error. */
  lemma StatusOfKind(ctx: Context, e: Error)
    ensures var kind, p := Public(e).kind, ToProblem(ctx, e);
      && (kind == "invalid_argument" ==> p.status == 400 && p.title == "Bad Request")
      && (kind == "unauthenticated" ==> p.status == 401 && p.title == "Unauthorized")
      && (kind == "permission_denied" ==> p.status == 403 && p.title == "Forbidden")
      && (kind == "not_found" ==> p.status == 404 && p.title == "Not Found")
      && (kind == "conflict" ==> p.status == 409 && p.title == "Conflict")
      && (kind == "rate_limited" ==> p.status == 429 && p.title == "Too Many Requests")
      && (kind == "internal" ==> p.status == 500 && p.title == "Internal Server Error")
      && (kind == "unimplemented" ==> p.status == 501 && p.title == "Not Implemented")
      && (kind == "unavailable" ==> p.status == 503 && p.title == "Service Unavailable")
      && (kind == "deadline_exceeded" ==> p.status == 504 && p.title == "Gateway Timeout")
  {}

  // ---------------------------------------------------------------------------------------
  // Keys
  // ---------------------------------------------------------------------------------------

  ghost predicate Letters(word: string) {
    forall i :: 0 <= i < |word| ==> 'a' <= word[i] <= 'z' || '0' <= word[i] <= '9'
  }

  ghost predicate Groups(words: seq<string>, seps: seq<char>) {
    && |words| == |seps|
    && (forall i :: 0 <= i < |words| ==> words[i] != "" && Letters(words[i]))
    && (forall i :: 0 <= i < |seps| ==> seps[i] in {'.', '_', '-'})
  }

  /** Every word behind its separator. */
  function Spelled(words: seq<string>, seps: seq<char>): string
    requires |words| == |seps|
  {
    if words == [] then [] else [seps[0]] + words[0] + Spelled(words[1..], seps[1..])
  }

  /** The pattern of a key: a small letter, more small letters and digits, and then groups of them,
      each behind a dot, an underscore or a dash. */
  ghost predicate IsKey(s: string, head: string, words: seq<string>, seps: seq<char>) {
    && head != "" && 'a' <= head[0] <= 'z' && Letters(head)
    && Groups(words, seps)
    && s == head + Spelled(words, seps)
  }

  lemma {:induction false} Parse(s: string, inGroup: bool)
    returns (head: string, words: seq<string>, seps: seq<char>)
    requires KeyRest(s, inGroup)
    ensures Letters(head) && Groups(words, seps) && s == head + Spelled(words, seps) && (inGroup || head != "")
  {
    if s == [] {
      head, words, seps := "", [], [];
    } else if WordChar(s[0]) {
      var h;
      h, words, seps := Parse(s[1..], true);
      head := [s[0]] + h;
    } else {
      var h, ws, cs := Parse(s[1..], false);
      head, words, seps := "", [h] + ws, [s[0]] + cs;
      assert words[1..] == ws && seps[1..] == cs;
      assert s == [s[0]] + (h + Spelled(ws, cs));
    }
  }

  lemma {:induction false} Unparse(head: string, words: seq<string>, seps: seq<char>, inGroup: bool)
    requires Letters(head) && Groups(words, seps) && (inGroup || head != "")
    ensures KeyRest(head + Spelled(words, seps), inGroup)
    decreases |words|, |head|
  {
    var s := head + Spelled(words, seps);
    if head != "" {
      Unparse(head[1..], words, seps, true);
      assert s[1..] == head[1..] + Spelled(words, seps);
    } else if words != [] {
      Unparse(words[0], words[1..], seps[1..], false);
      assert s[1..] == words[0] + Spelled(words[1..], seps[1..]);
    }
  }

  /** The keys that are accepted are exactly those of the pattern. */
  lemma KeysMatchPattern(s: string)
    ensures ValidKey(s) <==> exists head, words, seps :: IsKey(s, head, words, seps)
  {
    if ValidKey(s) {
      var h, words, seps := Parse(s[1..], true);
      var head := [s[0]] + h;
      assert s == [s[0]] + s[1..] == head + Spelled(words, seps);
      assert IsKey(s, head, words, seps);
    }
    if head, words, seps :| IsKey(s, head, words, seps) {
      Unparse(head[1..], words, seps, true);
      assert s[1..] == head[1..] + Spelled(words, seps);
    }
  }

  // ---------------------------------------------------------------------------------------
  // What `Define` accepts
  // ---------------------------------------------------------------------------------------

  ghost predicate KnownKind(kind: string) {
    kind in ["invalid_argument", "unauthenticated", "permission_denied", "not_found", "conflict",
             "rate_limited", "deadline_exceeded", "unavailable", "unimplemented", "internal"]
  }

  lemma KindsAreKnown(kind: string)
    ensures ValidKind(kind) <==> KnownKind(kind)
  {}

  lemma {:induction false} BytesAreThere(s: string)
    ensures ByteLength(s) >= 1 <==> s != ""
  {}

  /** A definition is accepted exactly with a positive code, a key of the pattern and one of the ten
      kinds, and a message of one line and of 1 to 256 bytes, key and message taken without the
      space around them. */
  lemma DefineAcceptsExactly(code: int, key: string, kind: string, message: string)
    ensures Define(code, key, kind, message).Some? <==>
      && code >= 1
      && (exists head, words, seps :: IsKey(Trim(key), head, words, seps))
      && KnownKind(kind)
      && 1 <= ByteLength(Trim(message)) <= 256
      && (forall c :: c in Trim(message) ==> c != '\n' && c != '\r')
    ensures var r := Define(code, key, kind, message);
      r.Some? ==> r.value == Definition(code, Trim(key), kind, Trim(message))
  {
    KeysMatchPattern(Trim(key));
    KindsAreKnown(kind);
    BytesAreThere(Trim(message));
  }
}

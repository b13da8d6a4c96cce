/** The dynamic configuration manager: a listener callback and a poll loop deliver documents in
    any order and any number of times, and a revision rule decides what becomes current. */
module ConfigManager {
  import opened Wrappers

  datatype Document = Document(revision: nat, body: string)

  /** The outcome of fetching, decrypting and decoding. */
  datatype Payload = Unreadable | Readable(document: Document)

  /** One delivery. `bound` tells whether the callback named the requested document, `accepts`
      whether the application would apply the document at that moment. */
  datatype Delivery =
    | Callback(bound: bool, payload: Payload, accepts: bool)
    | Poll(payload: Payload, accepts: bool)

  /** `stored` lists the documents that became current, the last one being current. The counters
      are the reload metrics, and `quiet` the deliveries that touch neither. */
  datatype State = State(current: Option<Document>, stored: seq<Document>, applied: nat, rejected: nat, quiet: nat)

  const EMPTY := State(None, [], 0, 0, 0)

  datatype Verdict = Applied | Same | Refused

  function Judge(current: Option<Document>, d: Document, accepts: bool): Verdict {
    if current.Some? && d.revision < current.value.revision then Refused
    else if current.Some? && d.revision == current.value.revision then
      if d == current.value then Same else Refused
    else if accepts then Applied
    else Refused
  }

  function ApplyDocument(s: State, d: Document, accepts: bool): State {
    match Judge(s.current, d, accepts)
    case Applied => s.(current := Some(d), stored := s.stored + [d], applied := s.applied + 1)
    case Same => s.(quiet := s.quiet + 1)
    case Refused => s.(rejected := s.rejected + 1)
  }

  function Deliver(s: State, d: Delivery): State {
    match d
    case Callback(bound, payload, accepts) =>
      if !bound || payload.Unreadable? then s.(rejected := s.rejected + 1)
      else ApplyDocument(s, payload.document, accepts)
    case Poll(payload, accepts) =>
      if payload.Unreadable? then s.(quiet := s.quiet + 1)
      else ApplyDocument(s, payload.document, accepts)
  }

  /** Loading stores the document without asking the application or comparing revisions. */
  function Load(s: State, d: Document): State {
    s.(current := Some(d), stored := s.stored + [d])
  }

  function Run(s: State, ds: seq<Delivery>): State {
    if ds == [] then s else Deliver(Run(s, ds[..|ds| - 1]), ds[|ds| - 1])
  }

  // ---------------------------------------------------------------------------------------
  // The object
  // ---------------------------------------------------------------------------------------

  class Manager {
    const namespace: string
    const group: string
    const dataId: string
    var current: Option<Document>
    var applied: nat
    var rejected: nat
    ghost var stored: seq<Document>
    ghost var quiet: nat

    ghost function View(): State
      reads this
    {
      State(current, stored, applied, rejected, quiet)
    }

    constructor (namespace: string, group: string, dataId: string)
      ensures View() == EMPTY
      ensures this.namespace == namespace && this.group == group && this.dataId == dataId
    {
      this.namespace, this.group, this.dataId := namespace, group, dataId;
      current, applied, rejected, stored, quiet := None, 0, 0, [], 0;
    }

    method LoadDocument(d: Document)
      modifies this
      ensures View() == Load(old(View()), d)
    {
      current := Some(d);
      stored := stored + [d];
    }

    /** Answers whether the document was refused. Only the caller counts a refusal. */
    method Offer(d: Document, accepts: bool) returns (refused: bool)
      modifies this
      ensures refused <==> Judge(old(current), d, accepts).Refused?
      ensures View() == if refused then old(View()) else ApplyDocument(old(View()), d, accepts)
    {
      if current.Some? {
        if d.revision < current.value.revision {
          return true;
        }
        if d.revision == current.value.revision {
          if d != current.value {
            return true;
          }
          quiet := quiet + 1;
          return false;
        }
      }
      if !accepts {
        return true;
      }
      current := Some(d);
      stored := stored + [d];
      applied := applied + 1;
      return false;
    }

    method HandleUpdate(namespace: string, group: string, dataId: string, payload: Payload, accepts: bool)
      modifies this
      ensures View() == Deliver(old(View()),
        Callback(namespace == this.namespace && group == this.group && dataId == this.dataId, payload, accepts))
    {
      if namespace != this.namespace || group != this.group || dataId != this.dataId {
        rejected := rejected + 1;
        return;
      }
      if payload.Unreadable? {
        rejected := rejected + 1;
        return;
      }
      var refused := Offer(payload.document, accepts);
      if refused {
        rejected := rejected + 1;
      }
    }

    /** The poll loop, over the answers it gets until it is cancelled. */
    method PollAll(answers: seq<Payload>, accepts: seq<bool>)
      requires |accepts| == |answers|
      modifies this
      ensures View() == Run(old(View()), Polls(answers, accepts))
    {
      var k := 0;
      while k < |answers|
        invariant 0 <= k <= |answers|
        invariant View() == Run(old(View()), Polls(answers, accepts)[..k])
      {
        var all := Polls(answers, accepts);
        assert all[..k + 1][..k] == all[..k];
        if answers[k].Unreadable? {
          quiet := quiet + 1;
        } else {
          var refused := Offer(answers[k].document, accepts[k]);
          if refused {
            rejected := rejected + 1;
          }
        }
        k := k + 1;
      }
      assert Polls(answers, accepts)[..k] == Polls(answers, accepts);
    }
  }

  function Polls(answers: seq<Payload>, accepts: seq<bool>): (ds: seq<Delivery>)
    requires |accepts| == |answers|
    ensures |ds| == |answers|
  {
    seq(|answers|, k requires 0 <= k < |answers| => Poll(answers[k], accepts[k]))
  }

  // ---------------------------------------------------------------------------------------
  // Last-good configuration
  // ---------------------------------------------------------------------------------------

  ghost predicate Increasing(docs: seq<Document>) {
    forall i, j :: 0 <= i < j < |docs| ==> docs[i].revision < docs[j].revision
  }

  /** The current document is the last that was stored, and each stored one is newer than the
      one before. */
  ghost predicate LastGood(s: State) {
    && Increasing(s.stored)
    && s.current == if s.stored == [] then None else Some(s.stored[|s.stored| - 1])
  }

  /** With arbitrary refusals by the application, unreadable payloads and conflicting documents,
      in any order, stored revisions strictly increase and the current document is the last one
      stored; a delivery that is not applied changes nothing else than a counter; and every
      delivery is counted once. */
  lemma {:induction false} LastGoodConfig(s: State, ds: seq<Delivery>)
    requires LastGood(s)
    ensures var t := Run(s, ds);
      && LastGood(t)
      && s.stored <= t.stored
      && |t.stored| - |s.stored| == t.applied - s.applied
      && (t.applied - s.applied) + (t.rejected - s.rejected) + (t.quiet - s.quiet) == |ds|
  {
    if ds == [] {
    } else {
      LastGoodConfig(s, ds[..|ds| - 1]);
      LastGoodStep(Run(s, ds[..|ds| - 1]), ds[|ds| - 1]);
    }
  }

  lemma LastGoodStep(s: State, d: Delivery)
    requires LastGood(s)
    ensures var t := Deliver(s, d);
      && LastGood(t)
      && s.stored <= t.stored
      && |t.stored| - |s.stored| == t.applied - s.applied
      && (t.applied - s.applied) + (t.rejected - s.rejected) + (t.quiet - s.quiet) == 1
  {}

  /** A delivery is applied exactly when it brings a readable document of the requested name that
      is newer than the current one and that the application accepts; the document is current
      then, and any other delivery leaves the configuration as it was. */
  lemma AppliedExactlyWhenNewer(s: State, d: Delivery)
    ensures var t := Deliver(s, d);
      if Brought(d) != [] && d.accepts && forall c :: c in Known(s) ==> c.revision < d.payload.document.revision
      then t.applied == s.applied + 1 && t.current == Some(d.payload.document)
      else t.applied == s.applied && t.current == s.current && t.stored == s.stored
  {
    assert s.current.Some? ==> Known(s)[0] == s.current.value;
  }

  // ---------------------------------------------------------------------------------------
  // Convergence
  // ---------------------------------------------------------------------------------------

  /** The document that a delivery brings to the revision rule, if it brings one. */
  function Brought(d: Delivery): seq<Document> {
    if d.payload.Readable? && (d.Poll? || d.bound) then [d.payload.document] else []
  }

  function Delivered(ds: seq<Delivery>): seq<Document> {
    if ds == [] then [] else Delivered(ds[..|ds| - 1]) + Brought(ds[|ds| - 1])
  }

  function Known(s: State): seq<Document> {
    if s.current.Some? then [s.current.value] else []
  }

  ghost predicate NewestFirstAt(docs: seq<Document>, d: Document, i: int) {
    && 0 <= i < |docs| && docs[i] == d
    && (forall j :: 0 <= j < i ==> docs[j].revision < d.revision)
    && (forall j :: i < j < |docs| ==> docs[j].revision <= d.revision)
  }

  /** `d` is the earliest document of the highest revision. */
  ghost predicate FirstNewest(docs: seq<Document>, d: Document) {
    exists i :: NewestFirstAt(docs, d, i)
  }

  ghost predicate AllAccepted(ds: seq<Delivery>) {
    forall k :: 0 <= k < |ds| ==> ds[k].accepts
  }

  ghost predicate HoldsFirstNewest(current: Option<Document>, docs: seq<Document>) {
    if docs == [] then current == None else current.Some? && FirstNewest(docs, current.value)
  }

  lemma FirstNewestStep(s: State, docs: seq<Document>, e: Document)
    requires HoldsFirstNewest(s.current, docs)
    ensures HoldsFirstNewest(ApplyDocument(s, e, true).current, docs + [e])
  {
    var all := docs + [e];
    assert all[|docs|] == e;
    if docs == [] {
      assert NewestFirstAt(all, e, 0);
    } else {
      var d := s.current.value;
      var i :| NewestFirstAt(docs, d, i);
      if e.revision > d.revision {
        assert NewestFirstAt(all, e, |docs|);
      } else {
        assert NewestFirstAt(all, d, i);
      }
    }
  }

  /** When the application accepts every document, the current document is the first of the
      highest revision among the initial one and those delivered, whatever else happened. */
  lemma {:induction false} CurrentIsFirstNewest(s: State, ds: seq<Delivery>)
    requires AllAccepted(ds)
    ensures HoldsFirstNewest(Run(s, ds).current, Known(s) + Delivered(ds))
  {
    if ds == [] {
      assert Known(s) + Delivered(ds) == Known(s);
      if s.current.Some? {
        assert NewestFirstAt(Known(s), s.current.value, 0);
      }
    } else {
      var before, d := ds[..|ds| - 1], ds[|ds| - 1];
      CurrentIsFirstNewest(s, before);
      var docs := Known(s) + Delivered(before);
      assert Known(s) + Delivered(ds) == docs + Brought(d);
      if Brought(d) == [] {
        assert docs + Brought(d) == docs;
      } else {
        FirstNewestStep(Run(s, before), docs, d.payload.document);
      }
    }
  }

  ghost predicate SameDocuments(xs: seq<Document>, ys: seq<Document>) {
    forall d: Document :: d in xs <==> d in ys
  }

  ghost predicate Newest(docs: seq<Document>, d: Document) {
    d in docs && forall e :: e in docs ==> e.revision <= d.revision
  }

  /** No two different documents carry the highest revision. */
  ghost predicate NoConflict(docs: seq<Document>) {
    forall d, e :: Newest(docs, d) && Newest(docs, e) ==> d == e
  }

  lemma FirstNewestIsNewest(docs: seq<Document>, d: Document)
    requires FirstNewest(docs, d)
    ensures Newest(docs, d)
  {
    var i :| NewestFirstAt(docs, d, i);
  }

  lemma SameEmptiness(xs: seq<Document>, ys: seq<Document>)
    requires SameDocuments(xs, ys)
    ensures xs == [] <==> ys == []
  {
    assert xs != [] ==> xs[0] in xs;
    assert ys != [] ==> ys[0] in ys;
  }

  /** If no two different documents compete for the highest revision, managers that start alike
      and see the same documents end alike, with the newest document, in whatever order and
      however often the documents come. */
  lemma DeliveriesConverge(s: State, ds: seq<Delivery>, es: seq<Delivery>)
    requires AllAccepted(ds) && AllAccepted(es)
    requires SameDocuments(Known(s) + Delivered(ds), Known(s) + Delivered(es))
    requires NoConflict(Known(s) + Delivered(ds))
    ensures Run(s, ds).current == Run(s, es).current
    ensures Run(s, ds).current.Some? ==> Newest(Known(s) + Delivered(ds), Run(s, ds).current.value)
  {
    var xs, ys := Known(s) + Delivered(ds), Known(s) + Delivered(es);
    CurrentIsFirstNewest(s, ds);
    CurrentIsFirstNewest(s, es);
    SameEmptiness(xs, ys);
    if xs != [] {
      var x, y := Run(s, ds).current.value, Run(s, es).current.value;
      FirstNewestIsNewest(xs, x);
      FirstNewestIsNewest(ys, y);
      assert Newest(xs, y);
    }
  }

  // ---------------------------------------------------------------------------------------
  // Exactly when the order does not matter
  // ---------------------------------------------------------------------------------------

  /** The manager ends alike for all deliveries of the documents `docs`. */
  ghost predicate OrderFree(s: State, docs: seq<Document>) {
    forall ds, es |
      && AllAccepted(ds) && SameDocuments(Delivered(ds), docs)
      && AllAccepted(es) && SameDocuments(Delivered(es), docs)
      :: Run(s, ds).current == Run(s, es).current
  }

  ghost predicate CurrentIsNewest(s: State, docs: seq<Document>) {
    s.current.Some? && forall d :: d in docs ==> d.revision <= s.current.value.revision
  }

  function PollsOf(docs: seq<Document>): seq<Delivery> {
    if docs == [] then [] else PollsOf(docs[..|docs| - 1]) + [Poll(Readable(docs[|docs| - 1]), true)]
  }

  lemma {:induction false} DeliveredSnoc(ds: seq<Delivery>, d: Delivery)
    ensures Delivered(ds + [d]) == Delivered(ds) + Brought(d)
    ensures AllAccepted(ds) && d.accepts ==> AllAccepted(ds + [d])
  {
    assert (ds + [d])[..|ds|] == ds;
  }

  lemma {:induction false} PollsBringThem(docs: seq<Document>)
    ensures AllAccepted(PollsOf(docs)) && Delivered(PollsOf(docs)) == docs
  {
    if docs != [] {
      var init, last := docs[..|docs| - 1], docs[|docs| - 1];
      PollsBringThem(init);
      DeliveredSnoc(PollsOf(init), Poll(Readable(last), true));
      assert docs == init + [last];
    }
  }

  /** Of documents of the highest revision, the one that comes first is kept. */
  lemma FirstComeFirstKept(s: State, a: Document, docs: seq<Document>)
    requires forall d :: d in docs ==> d.revision <= a.revision
    requires s.current.Some? ==> s.current.value.revision < a.revision
    ensures Run(s, PollsOf([a] + docs)).current == Some(a)
  {
    PollsBringThem([a] + docs);
    CurrentIsFirstNewest(s, PollsOf([a] + docs));
    var all := Known(s) + ([a] + docs);
    var at := |Known(s)|;
    assert all[at] == a;
    var x := Run(s, PollsOf([a] + docs)).current.value;
    assert forall j :: at < j < |all| ==> all[j] in docs;
    var i :| NewestFirstAt(all, x, i);
  }

  lemma CurrentKept(s: State, ds: seq<Delivery>, docs: seq<Document>)
    requires CurrentIsNewest(s, docs) && AllAccepted(ds) && SameDocuments(Delivered(ds), docs)
    ensures Run(s, ds).current == s.current
  {
    CurrentIsFirstNewest(s, ds);
    var all := Known(s) + Delivered(ds);
    assert all[0] == s.current.value;
    var x := Run(s, ds).current.value;
    assert forall j :: 0 < j < |all| ==> all[j] in Delivered(ds);
    var i :| NewestFirstAt(all, x, i);
  }

  /** The order of deliveries does not matter exactly when the current document is already as new
      as any, or no two different documents compete for the highest revision. */
  lemma ConvergesExactly(s: State, docs: seq<Document>)
    ensures OrderFree(s, docs) <==> CurrentIsNewest(s, docs) || NoConflict(Known(s) + docs)
  {
    if CurrentIsNewest(s, docs) {
      forall ds, es |
        && AllAccepted(ds) && SameDocuments(Delivered(ds), docs)
        && AllAccepted(es) && SameDocuments(Delivered(es), docs)
        ensures Run(s, ds).current == Run(s, es).current
      {
        CurrentKept(s, ds, docs);
        CurrentKept(s, es, docs);
      }
    } else if NoConflict(Known(s) + docs) {
      forall ds, es |
        && AllAccepted(ds) && SameDocuments(Delivered(ds), docs)
        && AllAccepted(es) && SameDocuments(Delivered(es), docs)
        ensures Run(s, ds).current == Run(s, es).current
      {
        NoConflictCarries(s, docs, Delivered(ds));
        DeliveriesConverge(s, ds, es);
      }
    } else {
      var a, b :| Newest(Known(s) + docs, a) && Newest(Known(s) + docs, b) && a != b;
      TwoOrdersDisagree(s, docs, a, b);
    }
  }

  lemma NoConflictCarries(s: State, docs: seq<Document>, xs: seq<Document>)
    requires NoConflict(Known(s) + docs) && SameDocuments(xs, docs)
    ensures NoConflict(Known(s) + xs)
  {
    forall d, e | Newest(Known(s) + xs, d) && Newest(Known(s) + xs, e) ensures d == e {
      assert SameDocuments(Known(s) + xs, Known(s) + docs);
      assert Newest(Known(s) + docs, d) && Newest(Known(s) + docs, e);
    }
  }

  lemma NewestIsDelivered(s: State, docs: seq<Document>, a: Document)
    requires !CurrentIsNewest(s, docs) && Newest(Known(s) + docs, a)
    ensures a in docs && forall d :: d in docs ==> d.revision <= a.revision
    ensures s.current.Some? ==> s.current.value.revision < a.revision
  {
    var all := Known(s) + docs;
    forall d | d in docs ensures d.revision <= a.revision {
      assert d in all;
    }
  }

  lemma OneOrder(s: State, docs: seq<Document>, a: Document)
    requires !CurrentIsNewest(s, docs) && Newest(Known(s) + docs, a)
    ensures var ds := PollsOf([a] + docs);
      AllAccepted(ds) && SameDocuments(Delivered(ds), docs) && Run(s, ds).current == Some(a)
  {
    NewestIsDelivered(s, docs, a);
    PollsBringThem([a] + docs);
    FirstComeFirstKept(s, a, docs);
  }

  lemma TwoOrdersDisagree(s: State, docs: seq<Document>, a: Document, b: Document)
    requires !CurrentIsNewest(s, docs) && a != b
    requires Newest(Known(s) + docs, a) && Newest(Known(s) + docs, b)
    ensures !OrderFree(s, docs)
  {
    OneOrder(s, docs, a);
    OneOrder(s, docs, b);
    var ds, es := PollsOf([a] + docs), PollsOf([b] + docs);
    assert Run(s, ds).current != Run(s, es).current;
  }

  /** After any failures, delivering a document of the highest revision seen once more, when the
      application accepts it, brings the manager to that revision. */
  lemma RedeliveryHeals(s: State, ds: seq<Delivery>, d: Document)
    requires LastGood(s)
    requires forall e :: e in Known(s) + Delivered(ds) ==> e.revision <= d.revision
    ensures var t := Deliver(Run(s, ds), Poll(Readable(d), true));
      t.current.Some? && t.current.value.revision == d.revision
  {
    CurrentWasSeen(s, ds);
    AppliedExactlyWhenNewer(Run(s, ds), Poll(Readable(d), true));
  }

  lemma {:induction false} CurrentWasSeen(s: State, ds: seq<Delivery>)
    ensures var t := Run(s, ds); t.current.Some? ==> t.current.value in Known(s) + Delivered(ds)
  {
    if ds == [] {
    } else {
      CurrentWasSeen(s, ds[..|ds| - 1]);
    }
  }

  /** Loading keeps the order of revisions exactly when it does not go back behind the current
      document; it checks nothing itself. */
  lemma LoadKeepsLastGoodExactly(s: State, d: Document)
    requires LastGood(s)
    ensures LastGood(Load(s, d)) <==> (s.current.Some? ==> s.current.value.revision < d.revision)
  {
    var t := Load(s, d);
    var n := |s.stored|;
    if s.stored != [] {
      assert t.stored[n - 1] == s.stored[n - 1] && t.stored[n] == d;
    }
  }

  /** Loading revision 1 when revision 2 is current makes revision 1 current. */
  lemma LoadingCanGoBack()
    ensures var s := Load(EMPTY, Document(2, "new"));
      LastGood(s) && !LastGood(Load(s, Document(1, "old"))) && Load(s, Document(1, "old")).current.value.revision == 1
  {
    LoadKeepsLastGoodExactly(Load(EMPTY, Document(2, "new")), Document(1, "old"));
  }
}

/**
 What the list of restart-required fields means (pkg/configcenter/diff.go).
 The walk is measured against two definitions that know nothing of it: the
 routes through the declared fields along which two configurations part, and
 the configuration a process holds after taking over only what it may change
 while it runs.
 */
module ConfigDiffTheorems {
  import opened ConfigDiff

  // Routes: the field indices from the root to a place in the tree.

  // The route leads through common structs to a place where the values differ.
  ghost predicate PartsAt<D>(l: Tree<D>, r: Tree<D>, route: seq<nat>)
    requires Valid(l) && Valid(r)
    decreases |route|
  {
    var a, b := Strip(l), Strip(r);
    if route == [] then !SameStruct(a, b) && Boxed(a) != Boxed(b)
    else
      && SameStruct(a, b) && route[0] < |a.values| && Visible(a.shape.fields[route[0]])
      && PartsAt(a.values[route[0]], b.values[route[0]], route[1..])
  }

  ghost function PathAlong<D>(t: Tree<D>, path: string, route: seq<nat>): string
    requires Valid(t)
    decreases |route|
  {
    var a := Strip(t);
    if route == [] || !a.Struct? || route[0] >= |a.values| then path
    else PathAlong(a.values[route[0]], Child(path, a.shape.fields[route[0]]), route[1..])
  }

  ghost predicate Leads<D>(l: Tree<D>, r: Tree<D>, path: string, p: string, route: seq<nat>)
    requires Valid(l) && Valid(r)
  {
    PartsAt(l, r, route) && PathAlong(l, path, route) == p
  }

  lemma {:induction false} FieldIsCollected<D>(
    l: Tree<D>, r: Tree<D>, path: string, mutable: set<string>, i: nat, k: nat, p: string)
    requires Valid(l) && Valid(r) && SameStruct(l, r)
    requires i <= k < |l.values| && p in ChangesAt(l, r, path, mutable, k)
    ensures p in ChangesFrom(l, r, path, mutable, i)
    decreases k - i
  {
    if i < k { FieldIsCollected(l, r, path, mutable, i + 1, k, p); }
  }

  lemma {:induction false} CollectedFromField<D>(
    l: Tree<D>, r: Tree<D>, path: string, mutable: set<string>, i: nat, p: string) returns (k: nat)
    requires Valid(l) && Valid(r) && SameStruct(l, r) && i <= |l.values|
    requires p in ChangesFrom(l, r, path, mutable, i)
    ensures i <= k < |l.values| && p in ChangesAt(l, r, path, mutable, k)
    decreases |l.values| - i
  {
    if p in ChangesAt(l, r, path, mutable, i) {
      k := i;
    } else {
      k := CollectedFromField(l, r, path, mutable, i + 1, p);
    }
  }

  lemma {:induction false} ReportedHasRoute<D>(
    l: Tree<D>, r: Tree<D>, path: string, mutable: set<string>, p: string) returns (route: seq<nat>)
    requires Valid(l) && Valid(r) && p in Changes(l, r, path, mutable)
    ensures Leads(l, r, path, p, route) && p != "" && p !in mutable
    decreases l
  {
    ChangesOfStripped(l, r, path, mutable);
    StripKeeps(l);
    var a, b := Strip(l), Strip(r);
    if SameStruct(a, b) {
      var k := CollectedFromField(a, b, path, mutable, 0, p);
      var rest :=
        ReportedHasRoute(a.values[k], b.values[k], Child(path, a.shape.fields[k]), mutable, p);
      route := [k] + rest;
      assert route[1..] == rest;
    } else {
      route := [];
    }
  }

  lemma {:induction false} RouteIsReported<D>(
    l: Tree<D>, r: Tree<D>, path: string, mutable: set<string>, p: string, route: seq<nat>)
    requires Valid(l) && Valid(r) && Leads(l, r, path, p, route) && p != "" && p !in mutable
    ensures p in Changes(l, r, path, mutable)
    decreases |route|
  {
    ChangesOfStripped(l, r, path, mutable);
    if route != [] {
      var a, b, k := Strip(l), Strip(r), route[0];
      RouteIsReported(
        a.values[k], b.values[k], Child(path, a.shape.fields[k]), mutable, p, route[1..]);
      FieldIsCollected(a, b, path, mutable, 0, k, p);
    }
  }

  /**
   A path is reported exactly when it names a place where the configurations
   part and is not declared mutable.
   */
  lemma ReportsExactly<D>(startup: Tree<D>, candidate: Tree<D>, mutable: set<string>, p: string)
    requires Valid(startup) && Valid(candidate)
    ensures p in Changes(startup, candidate, "", mutable)
       <==> p != "" && p !in mutable && exists route :: Leads(startup, candidate, "", p, route)
  {
    if p in Changes(startup, candidate, "", mutable) {
      var route := ReportedHasRoute(startup, candidate, "", mutable, p);
    }
    if p != "" && p !in mutable && exists route :: Leads(startup, candidate, "", p, route) {
      var route :| Leads(startup, candidate, "", p, route);
      RouteIsReported(startup, candidate, "", mutable, p, route);
    }
  }

  /** The report does not depend on which configuration is the newer one. */
  lemma {:induction false} ReportIsSymmetric<D>(
    l: Tree<D>, r: Tree<D>, path: string, mutable: set<string>)
    requires Valid(l) && Valid(r)
    ensures Changes(l, r, path, mutable) == Changes(r, l, path, mutable)
    decreases l, r, 1, 0
  {
    ChangesOfStripped(l, r, path, mutable);
    ChangesOfStripped(r, l, path, mutable);
    StripKeeps(l);
    StripKeeps(r);
    if SameStruct(Strip(l), Strip(r)) { FieldsAreSymmetric(Strip(l), Strip(r), path, mutable, 0); }
  }

  lemma {:induction false} FieldsAreSymmetric<D>(
    l: Tree<D>, r: Tree<D>, path: string, mutable: set<string>, i: nat)
    requires Valid(l) && Valid(r) && SameStruct(l, r) && i <= |l.values|
    ensures ChangesFrom(l, r, path, mutable, i) == ChangesFrom(r, l, path, mutable, i)
    decreases l, r, 0, |l.values| - i
  {
    if i < |l.values| {
      ReportIsSymmetric(l.values[i], r.values[i], Child(path, l.shape.fields[i]), mutable);
      FieldsAreSymmetric(l, r, path, mutable, i + 1);
    }
  }

  // Taking over a configuration

  // The tree without its pointers.
  ghost function Flat<D>(t: Tree<D>): (f: Tree<D>)
    ensures !f.Ref?
  {
    match t
    case Missing => Nil
    case Ref(target) => Flat(target)
    case Struct(shape, values) =>
      Struct(shape, seq(|values|, i requires 0 <= i < |values| => Flat(values[i])))
    case _ => t
  }

  lemma {:induction false} FlatKeeps<D>(t: Tree<D>)
    requires Valid(t)
    ensures Valid(Flat(t)) && Flat(t) == Flat(Strip(t))
  {
    match t
    case Ref(target) => FlatKeeps(target);
    case Struct(_, values) =>
      forall i | 0 <= i < |values| ensures Valid(Flat(values[i])) { FlatKeeps(values[i]); }
    case _ =>
  }

  /**
   The configuration of a process started with `l` that takes over from `r` the
   mutable leaves, and whatever no path names.
   */
  ghost function Adopt<D>(l: Tree<D>, r: Tree<D>, path: string, mutable: set<string>): (t: Tree<D>)
    requires Valid(l) && Valid(r)
    ensures !t.Ref?
    decreases l, r
  {
    if l.Ref? then Adopt(l.target, r, path, mutable)
    else if r.Ref? then Adopt(l, r.target, path, mutable)
    else if SameStruct(l, r) then
      Struct(l.shape, seq(|l.values|, i requires 0 <= i < |l.values| =>
        var d := l.shape.fields[i];
        if Visible(d) then Adopt(l.values[i], r.values[i], Child(path, d), mutable)
        else Flat(r.values[i])))
    else Flat(if path == "" || path in mutable then r else l)
  }

  lemma {:induction false} AdoptIsValid<D>(l: Tree<D>, r: Tree<D>, path: string, mutable: set<string>)
    requires Valid(l) && Valid(r)
    ensures Valid(Adopt(l, r, path, mutable))
    decreases l, r
  {
    if l.Ref? { AdoptIsValid(l.target, r, path, mutable); }
    else if r.Ref? { AdoptIsValid(l, r.target, path, mutable); }
    else if SameStruct(l, r) {
      forall i | 0 <= i < |l.values|
        ensures Valid(Adopt(l, r, path, mutable).values[i])
      {
        AdoptIsValid(l.values[i], r.values[i], Child(path, l.shape.fields[i]), mutable);
        FlatKeeps(r.values[i]);
      }
    } else { FlatKeeps(l); FlatKeeps(r); }
  }

  lemma {:induction false} NoFieldChanges<D>(
    l: Tree<D>, r: Tree<D>, path: string, mutable: set<string>, i: nat)
    requires Valid(l) && Valid(r) && SameStruct(l, r) && i <= |l.values|
    ensures ChangesFrom(l, r, path, mutable, i) == []
       <==> forall k :: i <= k < |l.values| ==> ChangesAt(l, r, path, mutable, k) == []
  {
    if ChangesFrom(l, r, path, mutable, i) == [] {
      forall k | i <= k < |l.values| ensures ChangesAt(l, r, path, mutable, k) == [] {
        SilentField(l, r, path, mutable, i, k);
      }
    } else {
      var k := LoudField(l, r, path, mutable, i);
    }
  }

  lemma {:induction false} SilentField<D>(
    l: Tree<D>, r: Tree<D>, path: string, mutable: set<string>, i: nat, k: nat)
    requires Valid(l) && Valid(r) && SameStruct(l, r) && i <= k < |l.values|
    requires ChangesFrom(l, r, path, mutable, i) == []
    ensures ChangesAt(l, r, path, mutable, k) == []
    decreases k - i
  {
    FieldThenRest(l, r, path, mutable, i, []);
    if i < k { SilentField(l, r, path, mutable, i + 1, k); }
  }

  lemma {:induction false} LoudField<D>(
    l: Tree<D>, r: Tree<D>, path: string, mutable: set<string>, i: nat) returns (k: nat)
    requires Valid(l) && Valid(r) && SameStruct(l, r) && i <= |l.values|
    requires ChangesFrom(l, r, path, mutable, i) != []
    ensures i <= k < |l.values| && ChangesAt(l, r, path, mutable, k) != []
    decreases |l.values| - i
  {
    if ChangesAt(l, r, path, mutable, i) != [] {
      k := i;
    } else {
      k := LoudField(l, r, path, mutable, i + 1);
    }
  }

  /**
   Nothing waits for a restart exactly when the process, by taking over the
   mutable leaves alone, arrives at the candidate configuration.
   */
  lemma {:induction false} EmptyExactlyWhenAdoptable<D>(
    l: Tree<D>, r: Tree<D>, path: string, mutable: set<string>)
    requires Valid(l) && Valid(r)
    ensures Changes(l, r, path, mutable) == [] <==> Adopt(l, r, path, mutable) == Flat(r)
    decreases l, r
  {
    if l.Ref? { EmptyExactlyWhenAdoptable(l.target, r, path, mutable); }
    else if r.Ref? { EmptyExactlyWhenAdoptable(l, r.target, path, mutable); }
    else if SameStruct(l, r) {
      NoFieldChanges(l, r, path, mutable, 0);
      var a, f := Adopt(l, r, path, mutable), Flat(r);
      forall i | 0 <= i < |l.values|
        ensures ChangesAt(l, r, path, mutable, i) == [] <==> a.values[i] == f.values[i]
      {
        EmptyExactlyWhenAdoptable(
          l.values[i], r.values[i], Child(path, l.shape.fields[i]), mutable);
      }
      if Changes(l, r, path, mutable) == [] {
        assert a.values == f.values;
      } else {
        var k :| 0 <= k < |l.values| && ChangesAt(l, r, path, mutable, k) != [];
        assert a.values[k] != f.values[k];
      }
    }
  }

  lemma {:induction false} FlatIsUnchanged<D>(t: Tree<D>, path: string, mutable: set<string>)
    requires Valid(t)
    ensures Valid(Flat(t)) && Changes(t, Flat(t), path, mutable) == []
  {
    FlatKeeps(t);
    match t
    case Ref(target) => FlatIsUnchanged(target, path, mutable);
    case Struct(shape, values) =>
      forall i | 0 <= i < |values| ensures ChangesAt(t, Flat(t), path, mutable, i) == [] {
        FlatIsUnchanged(values[i], Child(path, shape.fields[i]), mutable);
      }
      NoFieldChanges(t, Flat(t), path, mutable, 0);
    case _ =>
  }

  /** Taking over the mutable leaves never needs a restart itself. */
  lemma {:induction false} AdoptingNeedsNoRestart<D>(
    l: Tree<D>, r: Tree<D>, path: string, mutable: set<string>)
    requires Valid(l) && Valid(r)
    ensures Valid(Adopt(l, r, path, mutable))
    ensures Changes(l, Adopt(l, r, path, mutable), path, mutable) == []
    decreases l, r
  {
    AdoptIsValid(l, r, path, mutable);
    if l.Ref? { AdoptingNeedsNoRestart(l.target, r, path, mutable); }
    else if r.Ref? { AdoptingNeedsNoRestart(l, r.target, path, mutable); }
    else if SameStruct(l, r) {
      var a := Adopt(l, r, path, mutable);
      forall i | 0 <= i < |l.values| ensures ChangesAt(l, a, path, mutable, i) == [] {
        AdoptingNeedsNoRestart(l.values[i], r.values[i], Child(path, l.shape.fields[i]), mutable);
      }
      NoFieldChanges(l, a, path, mutable, 0);
    } else {
      FlatIsUnchanged(l, path, mutable);
    }
  }

  /** It settles nothing else: what waited for a restart before still does, and only that. */
  lemma {:induction false} AdoptingLeavesTheRest<D>(
    l: Tree<D>, r: Tree<D>, path: string, mutable: set<string>)
    requires Valid(l) && Valid(r)
    ensures Valid(Adopt(l, r, path, mutable))
    ensures Changes(Adopt(l, r, path, mutable), r, path, mutable) == Changes(l, r, path, mutable)
    decreases l, r, 1, 0
  {
    AdoptIsValid(l, r, path, mutable);
    if l.Ref? { AdoptingLeavesTheRest(l.target, r, path, mutable); }
    else if r.Ref? { AdoptingLeavesTheRest(l, r.target, path, mutable); }
    else if SameStruct(l, r) { AdoptingLeavesFields(l, r, path, mutable, 0); }
    else {
      FlatIsUnchanged(r, path, mutable);
      ReportIsSymmetric(r, Flat(r), path, mutable);
    }
  }

  lemma {:induction false} AdoptingLeavesFields<D>(
    l: Tree<D>, r: Tree<D>, path: string, mutable: set<string>, i: nat)
    requires Valid(l) && Valid(r) && SameStruct(l, r) && i <= |l.values|
    ensures Valid(Adopt(l, r, path, mutable))
    ensures ChangesFrom(Adopt(l, r, path, mutable), r, path, mutable, i)
         == ChangesFrom(l, r, path, mutable, i)
    decreases l, r, 0, |l.values| - i
  {
    AdoptIsValid(l, r, path, mutable);
    if i < |l.values| {
      AdoptingLeavesTheRest(l.values[i], r.values[i], Child(path, l.shape.fields[i]), mutable);
      AdoptingLeavesFields(l, r, path, mutable, i + 1);
    }
  }

  // Paths are reported once

  // Visible fields of one struct have different names, none empty or dotted.
  ghost predicate WellNamed(shape: Shape) {
    && (forall i :: 0 <= i < |shape.fields| && Visible(shape.fields[i]) ==>
          Name(shape.fields[i]) != "" && '.' !in Name(shape.fields[i]))
    && (forall i, j | 0 <= i < j < |shape.fields| ::
          Visible(shape.fields[i]) && Visible(shape.fields[j]) ==>
          Name(shape.fields[i]) != Name(shape.fields[j]))
  }

  ghost predicate AllWellNamed<D>(t: Tree<D>) {
    match t
    case Ref(target) => AllWellNamed(target)
    case Struct(shape, values) =>
      WellNamed(shape) && forall i :: 0 <= i < |values| ==> AllWellNamed(values[i])
    case _ => true
  }

  ghost predicate Distinct(s: seq<string>) {
    forall i, j :: 0 <= i < j < |s| ==> s[i] != s[j]
  }

  // `p` is `path` itself or lies below it.
  ghost predicate Under(path: string, p: string) {
    path <= p && (|p| == |path| || p[|path|] == '.')
  }

  lemma {:induction false} ReportedUnder<D>(
    l: Tree<D>, r: Tree<D>, path: string, mutable: set<string>, p: string)
    requires Valid(l) && Valid(r) && path != "" && p in Changes(l, r, path, mutable)
    ensures Under(path, p)
    decreases l, r
  {
    if l.Ref? { ReportedUnder(l.target, r, path, mutable, p); }
    else if r.Ref? { ReportedUnder(l, r.target, path, mutable, p); }
    else if SameStruct(l, r) {
      var k := CollectedFromField(l, r, path, mutable, 0, p);
      var child := Child(path, l.shape.fields[k]);
      ReportedUnder(l.values[k], r.values[k], child, mutable, p);
      assert path <= child && child[|path|] == '.';
    }
  }

  lemma SiblingsApart(base: string, m: string, n: string, p: string)
    requires '.' !in m && '.' !in n && Under(base + m, p) && Under(base + n, p)
    ensures m == n
  {
    var k := |base|;
    assert p[k..k + |m|] == m && p[k..k + |n|] == n;
  }

  // No path is reported from two different fields of one struct.
  lemma FieldsApart<D>(
    l: Tree<D>, r: Tree<D>, path: string, mutable: set<string>, i: nat, j: nat, p: string)
    requires Valid(l) && Valid(r) && SameStruct(l, r) && WellNamed(l.shape) && i < j < |l.values|
    requires p in ChangesAt(l, r, path, mutable, i)
    ensures p !in ChangesAt(l, r, path, mutable, j)
  {
    if p in ChangesAt(l, r, path, mutable, j) {
      var d, e := l.shape.fields[i], l.shape.fields[j];
      ReportedUnder(l.values[i], r.values[i], Child(path, d), mutable, p);
      ReportedUnder(l.values[j], r.values[j], Child(path, e), mutable, p);
      var base := if path == "" then "" else path + ".";
      assert Child(path, d) == base + Name(d) && Child(path, e) == base + Name(e);
      SiblingsApart(base, Name(d), Name(e), p);
      assert false;
    }
  }

  /** With well-named fields no path is reported twice. */
  lemma {:induction false} ReportedOnce<D>(
    l: Tree<D>, r: Tree<D>, path: string, mutable: set<string>)
    requires Valid(l) && Valid(r) && AllWellNamed(l)
    ensures Distinct(Changes(l, r, path, mutable))
    decreases l, r, 1, 0
  {
    if l.Ref? { ReportedOnce(l.target, r, path, mutable); }
    else if r.Ref? { ReportedOnce(l, r.target, path, mutable); }
    else if SameStruct(l, r) { FieldsReportedOnce(l, r, path, mutable, 0); }
  }

  lemma {:induction false} FieldsReportedOnce<D>(
    l: Tree<D>, r: Tree<D>, path: string, mutable: set<string>, i: nat)
    requires Valid(l) && Valid(r) && SameStruct(l, r) && AllWellNamed(l) && i <= |l.values|
    ensures Distinct(ChangesFrom(l, r, path, mutable, i))
    decreases l, r, 0, |l.values| - i
  {
    if i < |l.values| {
      ReportedOnce(l.values[i], r.values[i], Child(path, l.shape.fields[i]), mutable);
      FieldsReportedOnce(l, r, path, mutable, i + 1);
      var here, rest := ChangesAt(l, r, path, mutable, i), ChangesFrom(l, r, path, mutable, i + 1);
      forall a, b | 0 <= a < |here| && 0 <= b < |rest| ensures here[a] != rest[b] {
        var k := CollectedFromField(l, r, path, mutable, i + 1, rest[b]);
        if here[a] == rest[b] { FieldsApart(l, r, path, mutable, i, k, here[a]); }
      }
    }
  }

  /** Two runs over the same pair, in either order, return the same list. */
  lemma SameReport<D>(
    l: Tree<D>, r: Tree<D>, mutable: set<string>, s: seq<string>, t: seq<string>)
    requires Valid(l) && Valid(r) && Sorted(s) && Sorted(t)
    requires multiset(s) == multiset(Changes(l, r, "", mutable))
    requires multiset(t) == multiset(Changes(r, l, "", mutable))
    ensures s == t
  {
    ReportIsSymmetric(l, r, "", mutable);
    SortedIsUnique(s, t);
  }

  /** Declaring the path of a struct mutable shields nothing inside of it: whatever is reported with
      no mutable path at all is still reported, except the path itself. */
  lemma StructPathShieldsOnlyItself<D>(l: Tree<D>, r: Tree<D>, path: string, p: string)
    requires Valid(l) && Valid(r) && p != path
    ensures p in Changes(l, r, "", {path}) <==> p in Changes(l, r, "", {})
  {
    ReportsExactly(l, r, {path}, p);
    ReportsExactly(l, r, {}, p);
  }

  const INNER := Shape("Inner", [FieldDecl("C", "c", true)])
  const OUTER := Shape("Outer", [FieldDecl("B", "b", true)])

  function Nested(n: int): Tree<int> {
    Struct(OUTER, [Struct(INNER, [Leaf("int", n)])])
  }

  /** With "b" declared mutable, a change of its field "c" waits for a restart all the same. */
  lemma MutableStructIsReported()
    ensures Valid(Nested(1)) && Valid(Nested(2)) && "b.c" in Changes(Nested(1), Nested(2), "", {"b"})
  {
    var l, r := Nested(1), Nested(2);
    assert BeforeComma("b") == "b" && BeforeComma("c") == "c";
    assert Child("", OUTER.fields[0]) == "b" && Child("b", INNER.fields[0]) == "b.c";
    var route := [0, 0];
    assert route[1..] == [0] && route[1..][1..] == [];
    assert PartsAt(l.values[0].values[0], r.values[0].values[0], []);
    assert PartsAt(l.values[0], r.values[0], [0]);
    assert Leads(l, r, "", "b.c", route);
    ReportsExactly(l, r, {"b"}, "b.c");
  }

  // How a place is named

  lemma {:induction false} SameIsUnchanged<D>(t: Tree<D>, path: string, mutable: set<string>)
    requires Valid(t)
    ensures Changes(t, t, path, mutable) == []
  {
    ChangesOfStripped(t, t, path, mutable);
    StripKeeps(t);
    var a := Strip(t);
    if a.Struct? {
      forall i | 0 <= i < |a.values| ensures ChangesAt(a, a, path, mutable, i) == [] {
        SameIsUnchanged(a.values[i], Child(path, a.shape.fields[i]), mutable);
      }
      NoFieldChanges(a, a, path, mutable, 0);
    }
  }

  lemma {:induction false} OnlyOneField<D>(
    l: Tree<D>, r: Tree<D>, path: string, mutable: set<string>, i: nat, k: nat)
    requires Valid(l) && Valid(r) && SameStruct(l, r) && k <= i < |l.values|
    requires forall j :: 0 <= j < |l.values| && j != i ==> ChangesAt(l, r, path, mutable, j) == []
    ensures ChangesFrom(l, r, path, mutable, k) == ChangesAt(l, r, path, mutable, i)
    decreases i - k
  {
    if k < i {
      OnlyOneField(l, r, path, mutable, i, k + 1);
      assert ChangesAt(l, r, path, mutable, k) == [];
    } else {
      NoFieldChanges(l, r, path, mutable, i + 1);
    }
  }

  // The two structs are of one type and differ at most in field `i`.
  ghost predicate DifferAt<D>(l: Tree<D>, r: Tree<D>, i: nat) {
    && Valid(l) && Valid(r) && l.Struct? && r.Struct? && l.shape == r.shape && i < |l.values|
    && (forall j :: 0 <= j < |l.values| && j != i ==> l.values[j] == r.values[j])
  }

  lemma FieldDecides<D>(l: Tree<D>, r: Tree<D>, i: nat, path: string, mutable: set<string>)
    requires DifferAt(l, r, i)
    ensures Changes(l, r, path, mutable) == ChangesAt(l, r, path, mutable, i)
  {
    forall j | 0 <= j < |l.values| && j != i ensures ChangesAt(l, r, path, mutable, j) == [] {
      SameIsUnchanged(l.values[j], Child(path, l.shape.fields[j]), mutable);
    }
    OnlyOneField(l, r, path, mutable, i, 0);
  }

  // `tag` is the name `n`, alone or in front of options.
  predicate TagNames(tag: string, n: string) {
    ',' !in n && (tag == n || n + "," <= tag)
  }

  // `m` is `n` with its ASCII capitals made small.
  predicate Lowered(n: string, m: string) {
    |m| == |n| && forall k :: 0 <= k < |n| ==>
      m[k] == if 'A' <= n[k] <= 'Z' then n[k] + 32 as char else n[k]
  }

  lemma {:induction false} NameInTag(tag: string, n: string)
    requires TagNames(tag, n)
    ensures BeforeComma(tag) == n
  {
    if n != "" {
      assert tag[0] == n[0] && tag == [n[0]] + tag[1..] && n == [n[0]] + n[1..];
      assert n[0] in n && forall c :: c in n[1..] ==> c in n;
      if tag != n {
        assert (n + ",")[1..] == n[1..] + ",";
      }
      NameInTag(tag[1..], n[1..]);
    }
  }

  lemma {:induction false} LowerIsLowered(n: string)
    ensures Lowered(n, Lower(n))
  {
    if n != "" {
      LowerIsLowered(n[1..]);
      var m := Lower(n);
      assert m[1..] == Lower(n[1..]);
      forall k | 0 <= k < |n| ensures m[k] == if 'A' <= n[k] <= 'Z' then n[k] + 32 as char else n[k] {
        if k > 0 { assert m[k] == m[1..][k - 1] && n[k] == n[1..][k - 1]; }
      }
    }
  }

  lemma {:induction false} LoweredIsUnique(n: string, m: string, m': string)
    requires Lowered(n, m) && Lowered(n, m')
    ensures m == m'
  {}

  function Below(path: string, name: string): string {
    if path == "" then name else path + "." + name
  }

  /** What changes inside an exported field is reported below the name that its tag gives, before
      any comma; only with no such name, below the field's own name in small letters. */
  lemma FieldsAreNamedByTag<D>(
    l: Tree<D>, r: Tree<D>, i: nat, n: string, small: string, path: string, mutable: set<string>)
    requires DifferAt(l, r, i) && l.shape.fields[i].exported
    requires TagNames(l.shape.fields[i].tag, n) && n != "-" && Lowered(l.shape.fields[i].goName, small)
    ensures Changes(l, r, path, mutable)
         == Changes(l.values[i], r.values[i], Below(path, if n != "" then n else small), mutable)
  {
    var d := l.shape.fields[i];
    FieldDecides(l, r, i, path, mutable);
    NameInTag(d.tag, n);
    LowerIsLowered(d.goName);
    LoweredIsUnique(d.goName, small, Lower(d.goName));
  }

  /** An unexported field, and one whose tag says "-", is never reported, nor is anything inside. */
  lemma HiddenFieldsAreNotReported<D>(l: Tree<D>, r: Tree<D>, i: nat, path: string, mutable: set<string>)
    requires DifferAt(l, r, i)
    requires !l.shape.fields[i].exported || TagNames(l.shape.fields[i].tag, "-")
    ensures Changes(l, r, path, mutable) == []
  {
    FieldDecides(l, r, i, path, mutable);
    if l.shape.fields[i].exported { NameInTag(l.shape.fields[i].tag, "-"); }
  }

  /** A leaf is reported under its path exactly when its values differ and the path is not mutable. */
  lemma LeavesAreReported<D>(goType: string, a: D, b: D, path: string, mutable: set<string>)
    requires path != ""
    ensures Changes(Leaf(goType, a), Leaf(goType, b), path, mutable)
         == if a != b && path !in mutable then [path] else []
  {}
}

/**
 The fields that a running process cannot pick up from a new configuration
 (pkg/configcenter/diff.go). Configurations are the value trees that
 reflection sees: leaves, structs with declared fields, and pointers.
 */
module ConfigDiff {

  // One declared struct field; `tag` is its mapstructure tag.
  datatype FieldDecl = FieldDecl(goName: string, tag: string, exported: bool)

  // A Go struct type: two struct types are the same when these are equal.
  datatype Shape = Shape(name: string, fields: seq<FieldDecl>)

  /**
   A reflected value. `Missing` is the invalid reflection of an untyped nil,
   `Nil` a nil pointer or interface, `Ref` a non-nil one. A leaf is a value of
   any type that is neither, with its contents in `D`.
   */
  datatype Tree<D> =
    | Missing
    | Nil
    | Ref(target: Tree<D>)
    | Leaf(goType: string, data: D)
    | Struct(shape: Shape, values: seq<Tree<D>>)

  // A struct value has one value for each declared field.
  ghost predicate Valid<D>(t: Tree<D>) {
    match t
    case Ref(target) => Valid(target)
    case Struct(shape, values) =>
      |values| == |shape.fields| && forall i :: 0 <= i < |values| ==> Valid(values[i])
    case _ => true
  }

  // Follows pointers as far as they go.
  function Strip<D>(t: Tree<D>): (r: Tree<D>)
    ensures Valid(t) ==> Valid(r)
    ensures !r.Ref?
  {
    if t.Ref? then Strip(t.target) else t
  }

  // What deep equality is asked about: every nil is the same.
  function Boxed<D>(t: Tree<D>): Tree<D> {
    if t.Missing? then Nil else t
  }

  predicate SameStruct<D>(l: Tree<D>, r: Tree<D>) {
    l.Struct? && r.Struct? && l.shape == r.shape
  }

  // Field names

  function BeforeComma(s: string): string {
    if s == "" || s[0] == ',' then "" else [s[0]] + BeforeComma(s[1..])
  }

  function Lower(s: string): string {
    if s == "" then ""
    else [if 'A' <= s[0] <= 'Z' then s[0] - 'A' + 'a' else s[0]] + Lower(s[1..])
  }

  predicate Visible(d: FieldDecl) {
    d.exported && BeforeComma(d.tag) != "-"
  }

  function Name(d: FieldDecl): string {
    if BeforeComma(d.tag) == "" then Lower(d.goName) else BeforeComma(d.tag)
  }

  function Child(path: string, d: FieldDecl): string {
    if path == "" then Name(d) else path + "." + Name(d)
  }

  // The walk

  function Changes<D(==)>(l: Tree<D>, r: Tree<D>, path: string, mutable: set<string>): seq<string>
    requires Valid(l) && Valid(r)
    decreases l, r, 1, 0
  {
    if l.Ref? then Changes(l.target, r, path, mutable)
    else if r.Ref? then Changes(l, r.target, path, mutable)
    else if SameStruct(l, r) then ChangesFrom(l, r, path, mutable, 0)
    else if path != "" && Boxed(l) != Boxed(r) && path !in mutable then [path]
    else []
  }

  // The changes of the fields from index `i` on.
  function ChangesFrom<D(==)>(
    l: Tree<D>, r: Tree<D>, path: string, mutable: set<string>, i: nat): seq<string>
    requires Valid(l) && Valid(r) && SameStruct(l, r) && i <= |l.values|
    decreases l, r, 0, |l.values| - i
  {
    if i == |l.values| then []
    else
      var d := l.shape.fields[i];
      (if Visible(d) then Changes(l.values[i], r.values[i], Child(path, d), mutable) else [])
      + ChangesFrom(l, r, path, mutable, i + 1)
  }

  // The changes of one field.
  function ChangesAt<D(==)>(
    l: Tree<D>, r: Tree<D>, path: string, mutable: set<string>, i: nat): seq<string>
    requires Valid(l) && Valid(r) && SameStruct(l, r) && i < |l.values|
  {
    var d := l.shape.fields[i];
    if Visible(d) then Changes(l.values[i], r.values[i], Child(path, d), mutable) else []
  }

  lemma {:induction false} FieldThenRest<D>(
    l: Tree<D>, r: Tree<D>, path: string, mutable: set<string>, i: nat, sofar: seq<string>)
    requires Valid(l) && Valid(r) && SameStruct(l, r) && i < |l.values|
    ensures sofar + ChangesFrom(l, r, path, mutable, i)
         == sofar + ChangesAt(l, r, path, mutable, i) + ChangesFrom(l, r, path, mutable, i + 1)
    ensures sofar + [] == sofar
  {}

  lemma {:induction false} StripKeeps<D>(t: Tree<D>)
    requires Valid(t)
    ensures Strip(t) == t || (t decreases to Strip(t))
  {
    if t.Ref? { StripKeeps(t.target); }
  }

  lemma {:induction false} ChangesOfStripped<D>(
    l: Tree<D>, r: Tree<D>, path: string, mutable: set<string>)
    requires Valid(l) && Valid(r)
    ensures Changes(l, r, path, mutable) == Changes(Strip(l), Strip(r), path, mutable)
    decreases l, r
  {
    if l.Ref? { ChangesOfStripped(l.target, r, path, mutable); }
    else if r.Ref? { ChangesOfStripped(l, r.target, path, mutable); }
  }

  // Sorting

  // The byte order of UTF-8 strings, which is the order of their code points.
  predicate AtMost(a: string, b: string) {
    a == "" || (b != "" && (a[0] < b[0] || (a[0] == b[0] && AtMost(a[1..], b[1..]))))
  }

  predicate Sorted(s: seq<string>) {
    forall i, j :: 0 <= i < j < |s| ==> AtMost(s[i], s[j])
  }

  lemma {:induction false} AtMostIsTotal(a: string, b: string)
    ensures AtMost(a, b) || AtMost(b, a)
    ensures AtMost(a, b) && AtMost(b, a) ==> a == b
  {
    if a != "" && b != "" && a[0] == b[0] {
      AtMostIsTotal(a[1..], b[1..]);
      assert a == [a[0]] + a[1..] && b == [b[0]] + b[1..];
    }
  }

  lemma {:induction false} AtMostIsTransitive(a: string, b: string, c: string)
    requires AtMost(a, b) && AtMost(b, c)
    ensures AtMost(a, c)
  {
    if a != "" && a[0] == b[0] == c[0] { AtMostIsTransitive(a[1..], b[1..], c[1..]); }
  }

  // The order is that of the dictionary: a prefix comes first, and otherwise the first difference
  // decides, which is at index `k`.
  lemma {:induction false} AtMostIsLexicographic(a: string, b: string, k: nat)
    requires k <= |a| && k <= |b| && a[..k] == b[..k]
    ensures k == |a| ==> AtMost(a, b)
    ensures k < |a| && k == |b| ==> !AtMost(a, b)
    ensures k < |a| && k < |b| && a[k] != b[k] ==> (AtMost(a, b) <==> a[k] < b[k])
  {
    if k > 0 {
      assert a[0] == a[..k][0] == b[..k][0] == b[0];
      assert a[1..][..k - 1] == a[..k][1..] == b[..k][1..] == b[1..][..k - 1];
      AtMostIsLexicographic(a[1..], b[1..], k - 1);
    }
  }

  // A sorted sequence is determined by its contents.
  lemma {:induction false} SortedIsUnique(s: seq<string>, t: seq<string>)
    requires Sorted(s) && Sorted(t) && multiset(s) == multiset(t)
    ensures s == t
  {
    assert |s| == |multiset(s)| == |multiset(t)| == |t|;
    if s != [] {
      assert s[0] in multiset(t) && t[0] in multiset(s);
      AtMostIsTotal(s[0], s[0]);
      assert AtMost(t[0], s[0]) by { AtMostIsTotal(t[0], t[0]); }
      assert AtMost(s[0], t[0]);
      AtMostIsTotal(s[0], t[0]);
      assert s == [s[0]] + s[1..] && t == [t[0]] + t[1..];
      assert multiset(s[1..]) == multiset(s) - multiset{s[0]};
      assert multiset(t[1..]) == multiset(t) - multiset{t[0]};
      SortedIsUnique(s[1..], t[1..]);
    }
  }

  method Insert(x: string, s: seq<string>) returns (r: seq<string>)
    requires Sorted(s)
    ensures Sorted(r) && multiset(r) == multiset(s) + multiset{x}
  {
    var i := 0;
    while i < |s| && AtMost(s[i], x)
      invariant i <= |s|
      invariant forall k :: 0 <= k < i ==> AtMost(s[k], x)
    {
      i := i + 1;
    }
    forall k | i <= k < |s| ensures AtMost(x, s[k]) {
      AtMostIsTotal(x, s[i]);
      if i < k { AtMostIsTransitive(x, s[i], s[k]); }
    }
    InsertedAt(x, s, i);
    r := s[..i] + [x] + s[i..];
  }

  lemma InsertedAt(x: string, s: seq<string>, i: nat)
    requires Sorted(s) && i <= |s|
    requires forall k :: 0 <= k < i ==> AtMost(s[k], x)
    requires forall k :: i <= k < |s| ==> AtMost(x, s[k])
    ensures var r := s[..i] + [x] + s[i..]; Sorted(r) && multiset(r) == multiset(s) + multiset{x}
  {
    assert s == s[..i] + s[i..];
    var r := s[..i] + [x] + s[i..];
    forall j, k | 0 <= j < k < |r| ensures AtMost(r[j], r[k]) {
      InsertedPair(x, s, i, j, k);
    }
  }

  lemma InsertedPair(x: string, s: seq<string>, i: nat, j: nat, k: nat)
    requires Sorted(s) && i <= |s| && j < k <= |s|
    requires forall m :: 0 <= m < i ==> AtMost(s[m], x)
    requires forall m :: i <= m < |s| ==> AtMost(x, s[m])
    ensures var r := s[..i] + [x] + s[i..]; AtMost(r[j], r[k])
  {
    var r := s[..i] + [x] + s[i..];
    assert r[j] == if j < i then s[j] else if j == i then x else s[j - 1];
    assert r[k] == if k < i then s[k] else if k == i then x else s[k - 1];
  }

  method Sort(s: seq<string>) returns (r: seq<string>)
    ensures Sorted(r) && multiset(r) == multiset(s)
  {
    r := [];
    for i := 0 to |s|
      invariant Sorted(r) && multiset(r) == multiset(s[..i])
    {
      assert s[..i + 1] == s[..i] + [s[i]];
      r := Insert(s[i], r);
    }
    assert s[..|s|] == s;
  }

  // The slice that the walk appends to, and the mutable paths it consults.
  class Walk<D(==)> {
    const mutable: set<string>
    var changed: seq<string>

    constructor (mutable: set<string>)
      ensures this.mutable == mutable && changed == []
    {
      this.mutable := mutable;
      changed := [];
    }

    method Collect(l: Tree<D>, r: Tree<D>, path: string)
      requires Valid(l) && Valid(r)
      modifies this`changed
      ensures changed == old(changed) + Changes(l, r, path, mutable)
      decreases l, 1
    {
      var left, right := l, r;
      while left.Ref?
        invariant Valid(left) && Strip(left) == Strip(l)
        decreases left
      {
        left := left.target;
      }
      while right.Ref?
        invariant Valid(right) && Strip(right) == Strip(r)
        decreases right
      {
        right := right.target;
      }
      ChangesOfStripped(l, r, path, mutable);
      StripKeeps(l);
      if SameStruct(left, right) {
        CollectFields(left, right, path);
      } else if path != "" && Boxed(left) != Boxed(right) && path !in mutable {
        changed := changed + [path];
      }
    }

    method CollectFields(l: Tree<D>, r: Tree<D>, path: string)
      requires Valid(l) && Valid(r) && SameStruct(l, r)
      modifies this`changed
      ensures changed == old(changed) + ChangesFrom(l, r, path, mutable, 0)
      decreases l, 0
    {
      for i := 0 to |l.values|
        invariant changed + ChangesFrom(l, r, path, mutable, i)
               == old(changed) + ChangesFrom(l, r, path, mutable, 0)
      {
        var d := l.shape.fields[i];
        FieldThenRest(l, r, path, mutable, i, changed);
        if Visible(d) {
          Collect(l.values[i], r.values[i], Child(path, d));
        }
      }
    }
  }

  /** What must wait for a restart: sorted, and as many of each path as the walk finds. */
  method RestartRequiredFields<D(==)>(
    startup: Tree<D>, candidate: Tree<D>, mutablePaths: seq<string>)
    returns (changed: seq<string>)
    requires Valid(startup) && Valid(candidate)
    ensures Sorted(changed)
    ensures multiset(changed)
         == multiset(Changes(startup, candidate, "", set p | p in mutablePaths))
  {
    var mutable: set<string> := {};
    for i := 0 to |mutablePaths|
      invariant mutable == set p | p in mutablePaths[..i]
    {
      mutable := mutable + {mutablePaths[i]};
    }
    assert mutablePaths[..|mutablePaths|] == mutablePaths;
    var walk := new Walk<D>(mutable);
    walk.Collect(startup, candidate, "");
    assert walk.changed == Changes(startup, candidate, "", mutable);
    changed := Sort(walk.changed);
  }
}

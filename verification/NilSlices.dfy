/** Emptying nil slices before encoding (pkg/clifmt/nilslices.go).

    A payload is copied so that every nil slice the encoder would see becomes an empty one. Payloads
    are graphs: pointers and maps live in a heap, may be shared, and may form cycles, which the copy
    must leave for encoding/json to report. Two objects may share one address, as a struct and its first
    field do, and it is addresses that the walk remembers.

    The encoder and the walk each have their own view of a struct: the encoder writes the fields it sees,
    the walk rewrites the fields it can set. So the copy does not always encode as the input would with
    every nil slice written as a list. What it encodes as is stated exactly, for every payload, and from
    that just when the promise holds. */
module NilSlices {
  import opened Base

  /** How a struct shows one of its fields: its json name; whether the encoder sees it; whether the walk
      can set it, which it cannot when it comes through an embedded unexported struct; omitempty; omitzero. */
  datatype Label = Label(name: string, seen: bool, settable: bool, omitEmpty: bool, omitZero: bool)

  /** A Go value. Slices, arrays, structs and interfaces hold theirs; pointers and maps refer. What a
      leaf tells omitempty and omitzero is part of it. */
  datatype Value =
    | Scalar(text: string, empty: bool, zero: bool)
    | OwnEncoding(text: string, empty: bool, zero: bool)    // implements json.Marshaler or encoding.TextMarshaler
    | Bytes(text: string, empty: bool, zero: bool)          // []byte, nil or not
    | NilSlice
    | Slice(elems: seq<Value>)
    | Array(elems: seq<Value>)
    | NilPointer
    | Pointer(addr: nat)
    | NilInterface
    | Interface(dynamic: Value)
    | NilMap
    | MapRef(addr: nat)
    | Struct(labels: seq<Label>, fields: seq<Value>)

  /** What a pointer or a map refers to; a map's entries are in the encoder's order. */
  datatype Object = Cell(contents: seq<Value>) | Dict(keys: seq<string>, contents: seq<Value>)

  type Heap = seq<Object>

  /** Every reference in v is to an object of the right kind among the first n of h. */
  ghost predicate Refers(h: Heap, n: nat, v: Value)
    requires n <= |h|
  {
    match v
    case Pointer(a) => a < n && h[a].Cell?
    case MapRef(a) => a < n && h[a].Dict?
    case Interface(d) => Refers(h, n, d)
    case Slice(es) => forall i | 0 <= i < |es| :: Refers(h, n, es[i])
    case Array(es) => forall i | 0 <= i < |es| :: Refers(h, n, es[i])
    case Struct(ls, fs) => |ls| == |fs| && forall i | 0 <= i < |fs| :: Refers(h, n, fs[i])
    case _ => true
  }

  ghost predicate RefersAll(h: Heap, n: nat, vs: seq<Value>)
    requires n <= |h|
  {
    forall i | 0 <= i < |vs| :: Refers(h, n, vs[i])
  }

  ghost predicate WellKinded(o: Object) {
    match o
    case Cell(vs) => |vs| == 1
    case Dict(ks, vs) => |ks| == |vs|
  }

  /** The first n objects of h refer only to one another. */
  ghost predicate Closed(h: Heap, n: nat) {
    n <= |h| && forall a | 0 <= a < n :: WellKinded(h[a]) && RefersAll(h, n, h[a].contents)
  }

  /** The objects not being encoded yet: what is left to descend into. */
  ghost function Free(n: nat, path: set<nat>): set<nat> {
    set a: nat | 0 <= a < n && a !in path
  }

  lemma FreeShrinks(n: nat, path: set<nat>, a: nat)
    requires a < n && a !in path
    ensures Free(n, path + {a}) < Free(n, path)
  {
    assert a in Free(n, path) && a !in Free(n, path + {a});
  }

  /** The objects whose address, as ats gives it, is not on the walk's path yet. */
  ghost function Off(ats: seq<nat>, onPath: set<nat>): set<nat> {
    set a: nat | 0 <= a < |ats| && ats[a] !in onPath
  }

  lemma OffShrinks(ats: seq<nat>, onPath: set<nat>, a: nat)
    requires a < |ats| && ats[a] !in onPath
    ensures Off(ats, onPath + {ats[a]}) < Off(ats, onPath)
  {
    assert a in Off(ats, onPath) && a !in Off(ats, onPath + {ats[a]});
  }

  function Every(k: nat): (mask: seq<bool>)
    ensures |mask| == k
  {
    seq(k, i => true)
  }

  function Settable(labels: seq<Label>): (mask: seq<bool>)
    ensures |mask| == |labels|
  {
    seq(|labels|, i requires 0 <= i < |labels| => labels[i].settable)
  }

  // ---- emptying ---------------------------------------------------------------------------------

  /** v copied with its nil slices emptied, and the heap with the copies' objects appended. ats are the
      addresses of the objects v can refer to; one whose address is on the path is left as it is. */
  ghost function Emptied(h: Heap, ats: seq<nat>, v: Value, onPath: set<nat>): (Value, Heap)
    requires Closed(h, |ats|) && Refers(h, |ats|, v)
    ensures h <= Emptied(h, ats, v, onPath).1
    decreases Off(ats, onPath), v, 1
  {
    match v
    case NilSlice => (Slice([]), h)
    case Slice(es) =>
      var (copies, h') := EmptiedAll(h, ats, Every(|es|), es, onPath);
      (Slice(copies), h')
    case Array(es) =>
      var (copies, h') := EmptiedAll(h, ats, Every(|es|), es, onPath);
      (Array(copies), h')
    case Struct(ls, fs) =>
      var (copies, h') := EmptiedAll(h, ats, Settable(ls), fs, onPath);
      (Struct(ls, copies), h')
    case Interface(d) =>
      var (copy, h') := Emptied(h, ats, d, onPath);
      (Interface(copy), h')
    case Pointer(a) =>
      if ats[a] in onPath then (v, h)
      else
        OffShrinks(ats, onPath, a);
        var (copies, h') := EmptiedAll(h, ats, Every(|h[a].contents|), h[a].contents, onPath + {ats[a]});
        (Pointer(|h'|), h' + [Cell(copies)])
    case MapRef(a) =>
      if ats[a] in onPath then (v, h)
      else
        OffShrinks(ats, onPath, a);
        var (copies, h') := EmptiedAll(h, ats, Every(|h[a].contents|), h[a].contents, onPath + {ats[a]});
        (MapRef(|h'|), h' + [Dict(h[a].keys, copies)])
    case _ => (v, h)
  }

  /** The values of vs that mask selects emptied one after the other, the others kept. */
  ghost function EmptiedAll(h: Heap, ats: seq<nat>, mask: seq<bool>, vs: seq<Value>, onPath: set<nat>): (r: (seq<Value>, Heap))
    requires Closed(h, |ats|) && RefersAll(h, |ats|, vs) && |mask| == |vs|
    ensures h <= r.1 && |r.0| == |vs|
    decreases Off(ats, onPath), vs, 0
  {
    if vs == [] then ([], h)
    else
      var k := |vs| - 1;
      var (copies, h1) := EmptiedAll(h, ats, mask[..k], vs[..k], onPath);
      if mask[k] then
        KeepsRefs(h, h1, |ats|, vs[k]);
        KeepsClosed(h, h1, |ats|);
        var (copy, h2) := Emptied(h1, ats, vs[k], onPath);
        (copies + [copy], h2)
      else (copies + [vs[k]], h1)
  }

  lemma KeepsRefs(h: Heap, h': Heap, n: nat, v: Value)
    requires h <= h' && n <= |h|
    ensures Refers(h, n, v) <==> Refers(h', n, v)
  {
  }

  lemma KeepsClosed(h: Heap, h': Heap, n: nat)
    requires h <= h' && Closed(h, n)
    ensures Closed(h', n)
  {
    forall a, i | 0 <= a < n && 0 <= i < |h'[a].contents| ensures Refers(h', n, h'[a].contents[i]) {
      KeepsRefs(h, h', n, h'[a].contents[i]);
    }
  }

  lemma WidensRefs(h: Heap, n: nat, m: nat, v: Value)
    requires n <= m <= |h| && Refers(h, n, v)
    ensures Refers(h, m, v)
  {
  }

  // ---- what encoding/json writes ------------------------------------------------------------------

  datatype Json = JNull | JText(text: string) | JList(elems: seq<Json>) | JObject(names: seq<string>, vals: seq<Json>)

  const EMPTY := JList([])

  /** What omitempty leaves out. */
  ghost predicate IsEmpty(h: Heap, v: Value) {
    match v
    case Scalar(_, empty, _) => empty
    case OwnEncoding(_, empty, _) => empty
    case Bytes(_, empty, _) => empty
    case Slice(es) => es == []
    case Array(es) => es == []
    case NilSlice => true
    case NilPointer => true
    case NilInterface => true
    case NilMap => true
    case MapRef(a) => a < |h| && h[a].contents == []
    case _ => false
  }

  /** What omitzero leaves out. */
  predicate IsZero(v: Value) {
    match v
    case Scalar(_, _, zero) => zero
    case OwnEncoding(_, _, zero) => zero
    case Bytes(_, _, zero) => zero
    case NilSlice => true
    case NilPointer => true
    case NilInterface => true
    case NilMap => true
    case Array(es) => forall i | 0 <= i < |es| :: IsZero(es[i])
    case Struct(_, fs) => forall i | 0 <= i < |fs| :: IsZero(fs[i])
    case _ => false
  }

  /** The fields the encoder writes. */
  ghost function Shown(h: Heap, labels: seq<Label>, fields: seq<Value>): (mask: seq<bool>)
    requires |labels| == |fields|
    ensures |mask| == |fields|
  {
    seq(|fields|, i requires 0 <= i < |fields| =>
      labels[i].seen && !(labels[i].omitEmpty && IsEmpty(h, fields[i])) && !(labels[i].omitZero && IsZero(fields[i])))
  }

  /** The names mask selects. */
  ghost function Names(labels: seq<Label>, mask: seq<bool>): seq<string>
    requires |labels| == |mask|
  {
    if labels == [] then []
    else
      var k := |labels| - 1;
      Names(labels[..k], mask[..k]) + if mask[k] then [labels[k].name] else []
  }

  /** The encoding of v, every nil slice written as nilAs; None when v runs into a cycle. path holds
      the objects being encoded. */
  ghost function Encoded(h: Heap, n: nat, v: Value, path: set<nat>, nilAs: Json): Option<Json>
    requires Closed(h, n) && Refers(h, n, v)
    decreases Free(n, path), v, 1
  {
    match v
    case Scalar(text, _, _) => Some(JText(text))
    case OwnEncoding(text, _, _) => Some(JText(text))
    case Bytes(text, _, _) => Some(JText(text))
    case NilSlice => Some(nilAs)
    case NilPointer => Some(JNull)
    case NilInterface => Some(JNull)
    case NilMap => Some(JNull)
    case Interface(d) => Encoded(h, n, d, path, nilAs)
    case Slice(es) => AsList(EncodedAll(h, n, Every(|es|), es, path, nilAs))
    case Array(es) => AsList(EncodedAll(h, n, Every(|es|), es, path, nilAs))
    case Struct(ls, fs) =>
      AsObject(Names(ls, Shown(h, ls, fs)), EncodedAll(h, n, Shown(h, ls, fs), fs, path, nilAs))
    case Pointer(a) =>
      if a in path then None
      else
        FreeShrinks(n, path, a);
        AsOne(EncodedAll(h, n, Every(|h[a].contents|), h[a].contents, path + {a}, nilAs))
    case MapRef(a) =>
      if a in path then None
      else
        FreeShrinks(n, path, a);
        AsObject(h[a].keys, EncodedAll(h, n, Every(|h[a].contents|), h[a].contents, path + {a}, nilAs))
  }

  /** The encodings of the values mask selects. */
  ghost function EncodedAll(h: Heap, n: nat, mask: seq<bool>, vs: seq<Value>, path: set<nat>, nilAs: Json): Option<seq<Json>>
    requires Closed(h, n) && RefersAll(h, n, vs) && |mask| == |vs|
    decreases Free(n, path), vs, 0
  {
    if vs == [] then Some([])
    else
      var k := |vs| - 1;
      var front := EncodedAll(h, n, mask[..k], vs[..k], path, nilAs);
      if !mask[k] then front
      else
        var last := Encoded(h, n, vs[k], path, nilAs);
        if front.Some? && last.Some? then Some(front.value + [last.value]) else None
  }

  ghost function AsList(js: Option<seq<Json>>): Option<Json> {
    if js.Some? then Some(JList(js.value)) else None
  }

  ghost function AsObject(names: seq<string>, js: Option<seq<Json>>): Option<Json> {
    if js.Some? then Some(JObject(names, js.value)) else None
  }

  /** The one encoding there is: a pointer encodes as what it points at. */
  ghost function AsOne(js: Option<seq<Json>>): Option<Json> {
    if js.Some? && js.value != [] then Some(js.value[0]) else None
  }

  // ---- facts about the encoder ----------------------------------------------------------------------

  /** Encoding looks only at what v refers to: heaps that agree there encode it alike, and paths that
      agree there refuse it alike. */
  lemma EncodedFrame(h: Heap, n: nat, h': Heap, n': nat, v: Value, path: set<nat>, path': set<nat>, nilAs: Json)
    requires Closed(h, n) && Closed(h', n') && n <= n' && h[..n] == h'[..n]
    requires Refers(h, n, v) && Refers(h', n', v)
    requires forall a: nat | a < n :: a in path <==> a in path'
    ensures Encoded(h, n, v, path, nilAs) == Encoded(h', n', v, path', nilAs)
    ensures IsEmpty(h, v) <==> IsEmpty(h', v)
    decreases Free(n, path), v, 1
  {
    match v
    case Interface(d) => EncodedFrame(h, n, h', n', d, path, path', nilAs);
    case Slice(es) => EncodedAllFrame(h, n, h', n', Every(|es|), es, path, path', nilAs);
    case Array(es) => EncodedAllFrame(h, n, h', n', Every(|es|), es, path, path', nilAs);
    case Struct(ls, fs) =>
      forall i | 0 <= i < |fs| ensures IsEmpty(h, fs[i]) <==> IsEmpty(h', fs[i]) {
        EncodedFrame(h, n, h', n', fs[i], path, path', nilAs);
      }
      assert Shown(h, ls, fs) == Shown(h', ls, fs);
      EncodedAllFrame(h, n, h', n', Shown(h, ls, fs), fs, path, path', nilAs);
    case Pointer(a) =>
      assert h[a] == h[..n][a] == h'[..n][a] == h'[a];
      if a !in path {
        FreeShrinks(n, path, a);
        EncodedAllFrame(h, n, h', n', Every(|h[a].contents|), h[a].contents, path + {a}, path' + {a}, nilAs);
      }
    case MapRef(a) =>
      assert h[a] == h[..n][a] == h'[..n][a] == h'[a];
      if a !in path {
        FreeShrinks(n, path, a);
        EncodedAllFrame(h, n, h', n', Every(|h[a].contents|), h[a].contents, path + {a}, path' + {a}, nilAs);
      }
    case _ =>
  }

  lemma EncodedAllFrame(
    h: Heap, n: nat, h': Heap, n': nat, mask: seq<bool>, vs: seq<Value>, path: set<nat>, path': set<nat>, nilAs: Json)
    requires Closed(h, n) && Closed(h', n') && n <= n' && h[..n] == h'[..n]
    requires RefersAll(h, n, vs) && RefersAll(h', n', vs) && |mask| == |vs|
    requires forall a: nat | a < n :: a in path <==> a in path'
    ensures EncodedAll(h, n, mask, vs, path, nilAs) == EncodedAll(h', n', mask, vs, path', nilAs)
    decreases Free(n, path), vs, 0
  {
    if vs != [] {
      var k := |vs| - 1;
      EncodedAllFrame(h, n, h', n', mask[..k], vs[..k], path, path', nilAs);
      EncodedFrame(h, n, h', n', vs[k], path, path', nilAs);
    }
  }

  /** What encodes below some objects encodes the same below fewer. */
  lemma EncodedBelowFewer(h: Heap, n: nat, v: Value, few: set<nat>, many: set<nat>, nilAs: Json)
    requires Closed(h, n) && Refers(h, n, v) && few <= many
    ensures Encoded(h, n, v, many, nilAs).Some? ==> Encoded(h, n, v, few, nilAs) == Encoded(h, n, v, many, nilAs)
    decreases Free(n, many), v, 1
  {
    match v
    case Interface(d) => EncodedBelowFewer(h, n, d, few, many, nilAs);
    case Slice(es) => EncodedAllBelowFewer(h, n, Every(|es|), es, few, many, nilAs);
    case Array(es) => EncodedAllBelowFewer(h, n, Every(|es|), es, few, many, nilAs);
    case Struct(ls, fs) => EncodedAllBelowFewer(h, n, Shown(h, ls, fs), fs, few, many, nilAs);
    case Pointer(a) =>
      if a !in many {
        FreeShrinks(n, many, a);
        EncodedAllBelowFewer(h, n, Every(|h[a].contents|), h[a].contents, few + {a}, many + {a}, nilAs);
      }
    case MapRef(a) =>
      if a !in many {
        FreeShrinks(n, many, a);
        EncodedAllBelowFewer(h, n, Every(|h[a].contents|), h[a].contents, few + {a}, many + {a}, nilAs);
      }
    case _ =>
  }

  lemma EncodedAllBelowFewer(h: Heap, n: nat, mask: seq<bool>, vs: seq<Value>, few: set<nat>, many: set<nat>, nilAs: Json)
    requires Closed(h, n) && RefersAll(h, n, vs) && |mask| == |vs| && few <= many
    ensures EncodedAll(h, n, mask, vs, many, nilAs).Some? ==>
              EncodedAll(h, n, mask, vs, few, nilAs) == EncodedAll(h, n, mask, vs, many, nilAs)
    decreases Free(n, many), vs, 0
  {
    if vs != [] {
      var k := |vs| - 1;
      EncodedAllBelowFewer(h, n, mask[..k], vs[..k], few, many, nilAs);
      EncodedBelowFewer(h, n, vs[k], few, many, nilAs);
    }
  }

  /** The encoder writes no nil slice in v. */
  ghost predicate NoNil(h: Heap, n: nat, v: Value, path: set<nat>)
    requires Closed(h, n) && Refers(h, n, v)
    decreases Free(n, path), v, 1
  {
    match v
    case NilSlice => false
    case Interface(d) => NoNil(h, n, d, path)
    case Slice(es) => NoNilAll(h, n, Every(|es|), es, path)
    case Array(es) => NoNilAll(h, n, Every(|es|), es, path)
    case Struct(ls, fs) => NoNilAll(h, n, Shown(h, ls, fs), fs, path)
    case Pointer(a) =>
      if a in path then true
      else
        FreeShrinks(n, path, a);
        NoNilAll(h, n, Every(|h[a].contents|), h[a].contents, path + {a})
    case MapRef(a) =>
      if a in path then true
      else
        FreeShrinks(n, path, a);
        NoNilAll(h, n, Every(|h[a].contents|), h[a].contents, path + {a})
    case _ => true
  }

  ghost predicate NoNilAll(h: Heap, n: nat, mask: seq<bool>, vs: seq<Value>, path: set<nat>)
    requires Closed(h, n) && RefersAll(h, n, vs) && |mask| == |vs|
    decreases Free(n, path), vs, 0
  {
    vs == [] ||
    var k := |vs| - 1;
    NoNilAll(h, n, mask[..k], vs[..k], path) && (mask[k] ==> NoNil(h, n, vs[k], path))
  }

  /** Whether v encodes does not depend on how a nil slice is written; and what it encodes as does not
      exactly when none is. */
  lemma EncodesEitherWay(h: Heap, n: nat, v: Value, path: set<nat>, j: Json, j': Json)
    requires Closed(h, n) && Refers(h, n, v) && j != j'
    ensures Encoded(h, n, v, path, j).Some? <==> Encoded(h, n, v, path, j').Some?
    ensures Encoded(h, n, v, path, j).Some? ==>
              (Encoded(h, n, v, path, j) == Encoded(h, n, v, path, j') <==> NoNil(h, n, v, path))
    decreases Free(n, path), v, 1
  {
    match v
    case Interface(d) => EncodesEitherWay(h, n, d, path, j, j');
    case Slice(es) => EncodesAllEitherWay(h, n, Every(|es|), es, path, j, j');
    case Array(es) => EncodesAllEitherWay(h, n, Every(|es|), es, path, j, j');
    case Struct(ls, fs) => EncodesAllEitherWay(h, n, Shown(h, ls, fs), fs, path, j, j');
    case Pointer(a) => EncodesObjectEitherWay(h, n, v, a, path, j, j');
    case MapRef(a) => EncodesObjectEitherWay(h, n, v, a, path, j, j');
    case _ =>
  }

  lemma EncodesObjectEitherWay(h: Heap, n: nat, v: Value, a: nat, path: set<nat>, j: Json, j': Json)
    requires Closed(h, n) && Refers(h, n, v) && (v == Pointer(a) || v == MapRef(a)) && j != j'
    ensures Encoded(h, n, v, path, j).Some? <==> Encoded(h, n, v, path, j').Some?
    ensures Encoded(h, n, v, path, j).Some? ==>
              (Encoded(h, n, v, path, j) == Encoded(h, n, v, path, j') <==> NoNil(h, n, v, path))
    decreases Free(n, path), v, 0
  {
    if a !in path {
      FreeShrinks(n, path, a);
      EncodesAllEitherWay(h, n, Every(|h[a].contents|), h[a].contents, path + {a}, j, j');
      EncodedCount(h, n, h[a].contents, path + {a}, j);
      EncodedCount(h, n, h[a].contents, path + {a}, j');
    }
  }

  lemma EncodesAllEitherWay(h: Heap, n: nat, mask: seq<bool>, vs: seq<Value>, path: set<nat>, j: Json, j': Json)
    requires Closed(h, n) && RefersAll(h, n, vs) && |mask| == |vs| && j != j'
    ensures EncodedAll(h, n, mask, vs, path, j).Some? <==> EncodedAll(h, n, mask, vs, path, j').Some?
    ensures EncodedAll(h, n, mask, vs, path, j).Some? ==>
              (EncodedAll(h, n, mask, vs, path, j) == EncodedAll(h, n, mask, vs, path, j') <==> NoNilAll(h, n, mask, vs, path))
    decreases Free(n, path), vs, 0
  {
    if vs != [] {
      var k := |vs| - 1;
      EncodesAllEitherWay(h, n, mask[..k], vs[..k], path, j, j');
      if mask[k] {
        EncodesEitherWay(h, n, vs[k], path, j, j');
        SnocEqual(EncodedAll(h, n, mask[..k], vs[..k], path, j), Encoded(h, n, vs[k], path, j),
                  EncodedAll(h, n, mask[..k], vs[..k], path, j'), Encoded(h, n, vs[k], path, j'));
      }
    }
  }

  /** Two sequences extended by one are equal exactly when both parts are. */
  lemma SnocEqual(a: Option<seq<Json>>, x: Option<Json>, b: Option<seq<Json>>, y: Option<Json>)
    ensures a.Some? && x.Some? && b.Some? && y.Some? ==>
              (a.value + [x.value] == b.value + [y.value] <==> a == b && x == y)
  {
    if a.Some? && x.Some? && b.Some? && y.Some? {
      var p, q := a.value + [x.value], b.value + [y.value];
      if p == q {
        assert p[|p| - 1] == x.value && q[|q| - 1] == y.value;
        assert p[..|p| - 1] == a.value && q[..|q| - 1] == b.value;
      }
    }
  }

  /** Where every value is written there are as many encodings as values. */
  lemma {:induction false} EncodedCount(h: Heap, n: nat, vs: seq<Value>, path: set<nat>, j: Json)
    requires Closed(h, n) && RefersAll(h, n, vs)
    ensures EncodedAll(h, n, Every(|vs|), vs, path, j).Some? ==> |EncodedAll(h, n, Every(|vs|), vs, path, j).value| == |vs|
    decreases |vs|
  {
    if vs != [] {
      var k := |vs| - 1;
      assert Every(|vs|)[..k] == Every(k);
      EncodedCount(h, n, vs[..k], path, j);
    }
  }

  /** The contents of object a, encoded. */
  ghost function Content(h: Heap, n: nat, a: nat, path: set<nat>, nilAs: Json): Option<seq<Json>>
    requires Closed(h, n) && a < n
  {
    EncodedAll(h, n, Every(|h[a].contents|), h[a].contents, path, nilAs)
  }

  /** If only the presence of a on the path refuses v, then v reaches a, and a encodes below a. */
  lemma RefusedOnlyBy(h: Heap, n: nat, v: Value, path: set<nat>, a: nat, nilAs: Json)
    requires Closed(h, n) && Refers(h, n, v) && a < n
    requires Encoded(h, n, v, path, nilAs).Some? && Encoded(h, n, v, path + {a}, nilAs).None?
    ensures Content(h, n, a, path + {a}, nilAs).Some?
    decreases Free(n, path), v, 1
  {
    match v
    case Interface(d) => RefusedOnlyBy(h, n, d, path, a, nilAs);
    case Slice(es) => RefusedAllOnlyBy(h, n, Every(|es|), es, path, a, nilAs);
    case Array(es) => RefusedAllOnlyBy(h, n, Every(|es|), es, path, a, nilAs);
    case Struct(ls, fs) => RefusedAllOnlyBy(h, n, Shown(h, ls, fs), fs, path, a, nilAs);
    case Pointer(b) => RefusedBelowOnlyBy(h, n, v, b, path, a, nilAs);
    case MapRef(b) => RefusedBelowOnlyBy(h, n, v, b, path, a, nilAs);
    case _ =>
  }

  lemma RefusedBelowOnlyBy(h: Heap, n: nat, v: Value, b: nat, path: set<nat>, a: nat, nilAs: Json)
    requires Closed(h, n) && a < n && b < n && b !in path
    requires Content(h, n, b, path + {b}, nilAs).Some?
    requires b == a || !Content(h, n, b, path + {a} + {b}, nilAs).Some?
    ensures Content(h, n, a, path + {a}, nilAs).Some?
    decreases Free(n, path), v, 0
  {
    if b != a {
      FreeShrinks(n, path, b);
      assert path + {a} + {b} == path + {b} + {a};
      RefusedAllOnlyBy(h, n, Every(|h[b].contents|), h[b].contents, path + {b}, a, nilAs);
      EncodedAllBelowFewer(h, n, Every(|h[a].contents|), h[a].contents, path + {a}, path + {b} + {a}, nilAs);
    }
  }

  lemma RefusedAllOnlyBy(h: Heap, n: nat, mask: seq<bool>, vs: seq<Value>, path: set<nat>, a: nat, nilAs: Json)
    requires Closed(h, n) && RefersAll(h, n, vs) && |mask| == |vs| && a < n
    requires EncodedAll(h, n, mask, vs, path, nilAs).Some? && EncodedAll(h, n, mask, vs, path + {a}, nilAs).None?
    ensures Content(h, n, a, path + {a}, nilAs).Some?
    decreases Free(n, path), vs, 0
  {
    if vs != [] {
      var k := |vs| - 1;
      if EncodedAll(h, n, mask[..k], vs[..k], path + {a}, nilAs).None? {
        RefusedAllOnlyBy(h, n, mask[..k], vs[..k], path, a, nilAs);
      } else {
        RefusedOnlyBy(h, n, vs[k], path, a, nilAs);
      }
    }
  }

  /** An object encodes below itself exactly as it does at the top: a cycle through it refuses both. */
  lemma ContentBelowItself(h: Heap, n: nat, a: nat, nilAs: Json)
    requires Closed(h, n) && a < n
    ensures Content(h, n, a, {a}, nilAs) == Content(h, n, a, {}, nilAs)
  {
    var mask := Every(|h[a].contents|);
    EncodedAllBelowFewer(h, n, mask, h[a].contents, {}, {a}, nilAs);
    if Content(h, n, a, {}, nilAs).Some? && Content(h, n, a, {a}, nilAs).None? {
      assert {} + {a} == {a};
      RefusedAllOnlyBy(h, n, mask, h[a].contents, {}, a, nilAs);
    }
  }

  // ---- what the copy encodes as -----------------------------------------------------------------------

  /** Whether v is zero once its nil slices are emptied. */
  predicate ZeroAfter(v: Value) {
    match v
    case NilSlice => false
    case Array(es) => forall i | 0 <= i < |es| :: ZeroAfter(es[i])
    case Struct(ls, fs) =>
      |ls| == |fs| && forall i | 0 <= i < |fs| :: if ls[i].settable then ZeroAfter(fs[i]) else IsZero(fs[i])
    case _ => IsZero(v)
  }

  /** The fields the encoder writes of the copy. */
  ghost function ShownAfter(h: Heap, labels: seq<Label>, fields: seq<Value>): (mask: seq<bool>)
    requires |labels| == |fields|
    ensures |mask| == |fields|
  {
    seq(|fields|, i requires 0 <= i < |fields| =>
      && labels[i].seen && !(labels[i].omitEmpty && IsEmpty(h, fields[i]))
      && !(labels[i].omitZero && if labels[i].settable then ZeroAfter(fields[i]) else IsZero(fields[i])))
  }

  /** What the copy of v encodes as, read off the input: a nil slice the walk reaches is a list; below a
      field it cannot set, or an object whose address is on its path, all is as it was. */
  ghost function After(g: Heap, ats: seq<nat>, v: Value, onPath: set<nat>, j: Json): Option<Json>
    requires Closed(g, |g|) && |ats| == |g| && Refers(g, |g|, v)
    decreases Off(ats, onPath), v, 1
  {
    match v
    case NilSlice => Some(EMPTY)
    case Interface(d) => After(g, ats, d, onPath, j)
    case Slice(es) => AsList(AfterAll(g, ats, Every(|es|), Every(|es|), es, onPath, j))
    case Array(es) => AsList(AfterAll(g, ats, Every(|es|), Every(|es|), es, onPath, j))
    case Struct(ls, fs) =>
      AsObject(Names(ls, ShownAfter(g, ls, fs)), AfterAll(g, ats, Settable(ls), ShownAfter(g, ls, fs), fs, onPath, j))
    case Pointer(a) =>
      if ats[a] in onPath then Encoded(g, |g|, v, {}, j)
      else
        OffShrinks(ats, onPath, a);
        var every := Every(|g[a].contents|);
        AsOne(AfterAll(g, ats, every, every, g[a].contents, onPath + {ats[a]}, j))
    case MapRef(a) =>
      if ats[a] in onPath then Encoded(g, |g|, v, {}, j)
      else
        OffShrinks(ats, onPath, a);
        var every := Every(|g[a].contents|);
        AsObject(g[a].keys, AfterAll(g, ats, every, every, g[a].contents, onPath + {ats[a]}, j))
    case _ => Encoded(g, |g|, v, {}, j)
  }

  ghost function AfterAll(
    g: Heap, ats: seq<nat>, walk: seq<bool>, shown: seq<bool>, vs: seq<Value>, onPath: set<nat>, j: Json): Option<seq<Json>>
    requires Closed(g, |g|) && |ats| == |g| && RefersAll(g, |g|, vs) && |walk| == |shown| == |vs|
    decreases Off(ats, onPath), vs, 0
  {
    if vs == [] then Some([])
    else
      var k := |vs| - 1;
      var front := AfterAll(g, ats, walk[..k], shown[..k], vs[..k], onPath, j);
      if !shown[k] then front
      else
        var last := if walk[k] then After(g, ats, vs[k], onPath, j) else Encoded(g, |g|, vs[k], {}, j);
        if front.Some? && last.Some? then Some(front.value + [last.value]) else None
  }

  /** The copy refers into the new heap; it is empty when the original is, and zero when the original is
      once emptied. */
  ghost predicate Copies(h: Heap, v: Value, h': Heap, v': Value) {
    && Closed(h', |h'|) && Refers(h', |h'|, v')
    && (IsEmpty(h', v') <==> IsEmpty(h, v)) && (IsZero(v') <==> ZeroAfter(v)) && (ZeroAfter(v') <==> ZeroAfter(v))
  }

  ghost predicate CopiesAll(h: Heap, mask: seq<bool>, vs: seq<Value>, h': Heap, vs': seq<Value>)
    requires |mask| == |vs|
  {
    && |vs'| == |vs|
    && Closed(h', |h'|) && RefersAll(h', |h'|, vs')
    && (forall i | 0 <= i < |vs| ::
          if mask[i] then Copies(h, vs[i], h', vs'[i])
          else vs'[i] == vs[i] && (IsEmpty(h', vs[i]) <==> IsEmpty(h, vs[i])))
  }

  /** One more object whose contents refer to the others keeps the heap closed. */
  lemma Extends(h: Heap, h': Heap, contents: seq<Value>)
    requires Closed(h, |h|) && RefersAll(h, |h|, contents)
    requires |h'| == |h| + 1 && h <= h' && WellKinded(h'[|h|]) && h'[|h|].contents == contents
    ensures Closed(h', |h'|) && RefersAll(h', |h|, contents) && RefersAll(h', |h'|, contents)
  {
    forall a, i | 0 <= a < |h'| && 0 <= i < |h'[a].contents| ensures Refers(h', |h'|, h'[a].contents[i]) {
      KeepsRefs(h, h', |h|, h'[a].contents[i]);
      WidensRefs(h', |h|, |h'|, h'[a].contents[i]);
    }
    forall i | 0 <= i < |contents| ensures Refers(h', |h|, contents[i]) {
      KeepsRefs(h, h', |h|, contents[i]);
    }
  }

  /** A larger closed heap refers to, and finds empty, what the smaller one did. */
  lemma Grows(h: Heap, h': Heap, v: Value)
    requires Closed(h, |h|) && Closed(h', |h'|) && h <= h' && Refers(h, |h|, v)
    ensures Refers(h', |h'|, v)
    ensures IsEmpty(h, v) <==> IsEmpty(h', v)
  {
    KeepsRefs(h, h', |h|, v);
    WidensRefs(h', |h|, |h'|, v);
  }

  lemma EmptiedCopies(h: Heap, ats: seq<nat>, v: Value, onPath: set<nat>)
    requires Closed(h, |ats|) && Closed(h, |h|) && Refers(h, |ats|, v)
    ensures var (v', h') := Emptied(h, ats, v, onPath); Copies(h, v, h', v')
    decreases Off(ats, onPath), v, 1
  {
    match v
    case Interface(d) => EmptiedCopies(h, ats, d, onPath);
    case Slice(es) => EmptiedAllCopies(h, ats, Every(|es|), es, onPath);
    case Array(es) =>
      EmptiedAllCopies(h, ats, Every(|es|), es, onPath);
      ArrayCopies(h, es, EmptiedAll(h, ats, Every(|es|), es, onPath).1, EmptiedAll(h, ats, Every(|es|), es, onPath).0);
    case Struct(ls, fs) =>
      EmptiedAllCopies(h, ats, Settable(ls), fs, onPath);
      StructCopies(h, ls, fs, EmptiedAll(h, ats, Settable(ls), fs, onPath).1, EmptiedAll(h, ats, Settable(ls), fs, onPath).0);
    case Pointer(a) => ObjectCopies(h, ats, v, a, onPath);
    case MapRef(a) => ObjectCopies(h, ats, v, a, onPath);
    case _ =>
  }

  lemma ArrayCopies(h: Heap, es: seq<Value>, h': Heap, es': seq<Value>)
    requires CopiesAll(h, Every(|es|), es, h', es')
    ensures Copies(h, Array(es), h', Array(es'))
  {
    var v, v' := Array(es), Array(es');
    assert forall i | 0 <= i < |es| :: Every(|es|)[i];
    if ZeroAfter(v) {
      assert forall i | 0 <= i < |es| :: IsZero(es'[i]);
    }
  }

  lemma StructCopies(h: Heap, ls: seq<Label>, fs: seq<Value>, h': Heap, fs': seq<Value>)
    requires |ls| == |fs| && CopiesAll(h, Settable(ls), fs, h', fs')
    ensures Copies(h, Struct(ls, fs), h', Struct(ls, fs'))
  {
    var v, v' := Struct(ls, fs), Struct(ls, fs');
    assert forall i | 0 <= i < |fs| :: Settable(ls)[i] == ls[i].settable;
    if ZeroAfter(v) {
      assert forall i | 0 <= i < |fs| :: IsZero(fs'[i]);
    }
    if IsZero(v') {
      assert forall i | 0 <= i < |fs| :: if ls[i].settable then ZeroAfter(fs[i]) else IsZero(fs[i]);
    }
  }

  lemma ObjectCopies(h: Heap, ats: seq<nat>, v: Value, a: nat, onPath: set<nat>)
    requires Closed(h, |ats|) && Closed(h, |h|) && Refers(h, |ats|, v) && (v == Pointer(a) || v == MapRef(a))
    ensures var (v', h') := Emptied(h, ats, v, onPath); Copies(h, v, h', v')
    decreases Off(ats, onPath), v, 0
  {
    WidensRefs(h, |ats|, |h|, v);
    if ats[a] !in onPath {
      OffShrinks(ats, onPath, a);
      EmptiedAllCopies(h, ats, Every(|h[a].contents|), h[a].contents, onPath + {ats[a]});
      var (copies, h1) := EmptiedAll(h, ats, Every(|h[a].contents|), h[a].contents, onPath + {ats[a]});
      Extends(h1, Emptied(h, ats, v, onPath).1, copies);
    }
  }

  lemma EmptiedAllCopies(h: Heap, ats: seq<nat>, mask: seq<bool>, vs: seq<Value>, onPath: set<nat>)
    requires Closed(h, |ats|) && Closed(h, |h|) && RefersAll(h, |ats|, vs) && |mask| == |vs|
    ensures var (vs', h') := EmptiedAll(h, ats, mask, vs, onPath); CopiesAll(h, mask, vs, h', vs')
    decreases Off(ats, onPath), vs, 0
  {
    if vs != [] {
      var k := |vs| - 1;
      EmptiedAllCopies(h, ats, mask[..k], vs[..k], onPath);
      var (copies, h1) := EmptiedAll(h, ats, mask[..k], vs[..k], onPath);
      KeepsRefs(h, h1, |ats|, vs[k]);
      KeepsClosed(h, h1, |ats|);
      WidensRefs(h, |ats|, |h|, vs[k]);
      Grows(h, h1, vs[k]);
      if mask[k] {
        EmptiedCopies(h1, ats, vs[k], onPath);
        var h2 := Emptied(h1, ats, vs[k], onPath).1;
        forall i | 0 <= i < k
          ensures Refers(h2, |h2|, copies[i]) && (IsEmpty(h1, copies[i]) <==> IsEmpty(h2, copies[i]))
        {
          Grows(h1, h2, copies[i]);
        }
      }
    }
  }

  /** The copy encodes as After says: g is the input's heap, which h extends. */
  lemma EmptiedEncodes(g: Heap, h: Heap, ats: seq<nat>, v: Value, onPath: set<nat>, j: Json)
    requires |ats| == |g| && Closed(g, |g|) && g <= h && Closed(h, |g|) && Closed(h, |h|)
    requires Refers(g, |g|, v) && Refers(h, |g|, v)
    ensures var (v', h') := Emptied(h, ats, v, onPath);
      Copies(h, v, h', v') && Encoded(h', |h'|, v', {}, j) == After(g, ats, v, onPath, j)
    decreases Off(ats, onPath), v, 1
  {
    EmptiedCopies(h, ats, v, onPath);
    assert h[..|g|] == g[..|g|];
    match v
    case Interface(d) => EmptiedEncodes(g, h, ats, d, onPath, j);
    case Slice(es) => EmptiedAllEncodes(g, h, ats, Every(|es|), Every(|es|), es, onPath, j);
    case Array(es) => EmptiedAllEncodes(g, h, ats, Every(|es|), Every(|es|), es, onPath, j);
    case Struct(ls, fs) =>
      EmptiedAllEncodes(g, h, ats, Settable(ls), ShownAfter(g, ls, fs), fs, onPath, j);
      ShownOfCopy(g, h, ats, ls, fs, onPath);
    case Pointer(a) => ObjectEncodes(g, h, ats, v, a, onPath, j);
    case MapRef(a) => ObjectEncodes(g, h, ats, v, a, onPath, j);
    case _ =>
  }

  /** The encoder shows of a struct's copy the fields ShownAfter says. */
  lemma ShownOfCopy(g: Heap, h: Heap, ats: seq<nat>, ls: seq<Label>, fs: seq<Value>, onPath: set<nat>)
    requires |ats| == |g| && Closed(g, |g|) && g <= h && Closed(h, |g|) && Closed(h, |h|)
    requires |ls| == |fs| && RefersAll(g, |g|, fs) && RefersAll(h, |g|, fs)
    ensures var (copies, h') := EmptiedAll(h, ats, Settable(ls), fs, onPath);
      |copies| == |fs| && Shown(h', ls, copies) == ShownAfter(g, ls, fs)
  {
    EmptiedAllCopies(h, ats, Settable(ls), fs, onPath);
    var (copies, h') := EmptiedAll(h, ats, Settable(ls), fs, onPath);
    forall i | 0 <= i < |fs| ensures Shown(h', ls, copies)[i] == ShownAfter(g, ls, fs)[i] {
      EmptyInLarger(g, h, fs[i]);
    }
  }

  lemma EmptyInLarger(g: Heap, h: Heap, v: Value)
    requires g <= h && Refers(g, |g|, v)
    ensures IsEmpty(h, v) <==> IsEmpty(g, v)
  {
  }

  lemma ObjectEncodes(g: Heap, h: Heap, ats: seq<nat>, v: Value, a: nat, onPath: set<nat>, j: Json)
    requires |ats| == |g| && Closed(g, |g|) && g <= h && Closed(h, |g|) && Closed(h, |h|)
    requires Refers(g, |g|, v) && Refers(h, |g|, v) && (v == Pointer(a) || v == MapRef(a))
    ensures var (v', h') := Emptied(h, ats, v, onPath);
      Copies(h, v, h', v') && Encoded(h', |h'|, v', {}, j) == After(g, ats, v, onPath, j)
    decreases Off(ats, onPath), v, 0
  {
    EmptiedCopies(h, ats, v, onPath);
    assert h[..|g|] == g[..|g|] && h[a] == g[a];
    if ats[a] in onPath {
      WidensRefs(h, |g|, |h|, v);
      EncodedFrame(g, |g|, h, |h|, v, {}, {}, j);
    } else {
      var every, contents := Every(|h[a].contents|), h[a].contents;
      OffShrinks(ats, onPath, a);
      EmptiedAllEncodes(g, h, ats, every, every, contents, onPath + {ats[a]}, j);
      EmptiedAllCopies(h, ats, every, contents, onPath + {ats[a]});
      var (copies, h1) := EmptiedAll(h, ats, every, contents, onPath + {ats[a]});
      var h' := Emptied(h, ats, v, onPath).1;
      Extends(h1, h', copies);
      assert {} + {|h1|} == {|h1|};
      EncodedAllFrame(h1, |h1|, h', |h'|, every, copies, {}, {|h1|}, j);
    }
  }

  lemma EmptiedAllEncodes(
    g: Heap, h: Heap, ats: seq<nat>, walk: seq<bool>, shown: seq<bool>, vs: seq<Value>, onPath: set<nat>, j: Json)
    requires |ats| == |g| && Closed(g, |g|) && g <= h && Closed(h, |g|) && Closed(h, |h|)
    requires RefersAll(g, |g|, vs) && RefersAll(h, |g|, vs) && |walk| == |shown| == |vs|
    ensures var (vs', h') := EmptiedAll(h, ats, walk, vs, onPath);
      && CopiesAll(h, walk, vs, h', vs')
      && EncodedAll(h', |h'|, shown, vs', {}, j) == AfterAll(g, ats, walk, shown, vs, onPath, j)
    decreases Off(ats, onPath), vs, 0
  {
    EmptiedAllCopies(h, ats, walk, vs, onPath);
    if vs != [] {
      var k := |vs| - 1;
      EmptiedAllEncodes(g, h, ats, walk[..k], shown[..k], vs[..k], onPath, j);
      var (copies, h1) := EmptiedAll(h, ats, walk[..k], vs[..k], onPath);
      var (vs', h') := EmptiedAll(h, ats, walk, vs, onPath);
      assert vs'[..k] == copies;
      EncodedAllFrame(h1, |h1|, h', |h'|, shown[..k], copies, {}, {}, j);
      KeepsRefs(h, h1, |g|, vs[k]);
      KeepsClosed(h, h1, |g|);
      if shown[k] && walk[k] {
        EmptiedEncodes(g, h1, ats, vs[k], onPath, j);
      } else if shown[k] {
        assert h'[..|g|] == g[..|g|];
        EncodedFrame(g, |g|, h', |h'|, vs[k], {}, {}, j);
      }
    }
  }

  // ---- when that is what was promised -----------------------------------------------------------------

  /** What may stand where the encoder looks: a nil slice the walk reaches; a nil slice it misses; a field
      omitzero leaves out of the input but not of the copy. */
  datatype Query = Query(reached: bool, missed: bool, uncovered: bool)

  /** v, reached by the walk, holds nothing that q does not let stand. */
  ghost predicate May(g: Heap, ats: seq<nat>, v: Value, onPath: set<nat>, q: Query)
    requires Closed(g, |g|) && |ats| == |g| && Refers(g, |g|, v)
    decreases Off(ats, onPath), v, 1
  {
    match v
    case NilSlice => q.reached
    case Interface(d) => May(g, ats, d, onPath, q)
    case Slice(es) => MayAll(g, ats, Every(|es|), Every(|es|), Every(|es|), es, onPath, q)
    case Array(es) => MayAll(g, ats, Every(|es|), Every(|es|), Every(|es|), es, onPath, q)
    case Struct(ls, fs) => MayAll(g, ats, Settable(ls), Shown(g, ls, fs), ShownAfter(g, ls, fs), fs, onPath, q)
    case Pointer(a) =>
      if ats[a] in onPath then q.missed || NoNil(g, |g|, v, {})
      else
        OffShrinks(ats, onPath, a);
        var every := Every(|g[a].contents|);
        MayAll(g, ats, every, every, every, g[a].contents, onPath + {ats[a]}, q)
    case MapRef(a) =>
      if ats[a] in onPath then q.missed || NoNil(g, |g|, v, {})
      else
        OffShrinks(ats, onPath, a);
        var every := Every(|g[a].contents|);
        MayAll(g, ats, every, every, every, g[a].contents, onPath + {ats[a]}, q)
    case _ => true
  }

  /** The same of the values the copy shows; before are those that the input shows. */
  ghost predicate MayAll(
    g: Heap, ats: seq<nat>, walk: seq<bool>, before: seq<bool>, shown: seq<bool>, vs: seq<Value>, onPath: set<nat>, q: Query)
    requires Closed(g, |g|) && |ats| == |g| && RefersAll(g, |g|, vs) && |walk| == |before| == |shown| == |vs|
    decreases Off(ats, onPath), vs, 0
  {
    vs == [] ||
    var k := |vs| - 1;
    && MayAll(g, ats, walk[..k], before[..k], shown[..k], vs[..k], onPath, q)
    && (shown[k] ==>
          && (before[k] || q.uncovered)
          && if walk[k] then May(g, ats, vs[k], onPath, q) else q.missed || NoNil(g, |g|, vs[k], {}))
  }

  /** A zero value encodes. */
  lemma ZeroEncodes(g: Heap, ats: seq<nat>, v: Value, onPath: set<nat>, path: set<nat>, j: Json)
    requires Closed(g, |g|) && |ats| == |g| && Refers(g, |g|, v) && IsZero(v)
    ensures Encoded(g, |g|, v, path, j).Some? && After(g, ats, v, onPath, j).Some?
    decreases v, 1
  {
    match v
    case Array(es) => ZeroAllEncode(g, ats, Every(|es|), Every(|es|), es, onPath, path, j);
    case Struct(ls, fs) =>
      ZeroAllEncode(g, ats, Settable(ls), Shown(g, ls, fs), fs, onPath, path, j);
      ZeroAllEncode(g, ats, Settable(ls), ShownAfter(g, ls, fs), fs, onPath, path, j);
    case _ =>
  }

  lemma ZeroAllEncode(
    g: Heap, ats: seq<nat>, walk: seq<bool>, shown: seq<bool>, vs: seq<Value>, onPath: set<nat>, path: set<nat>, j: Json)
    requires Closed(g, |g|) && |ats| == |g| && RefersAll(g, |g|, vs) && |walk| == |shown| == |vs|
    requires forall i | 0 <= i < |vs| :: IsZero(vs[i])
    ensures EncodedAll(g, |g|, shown, vs, path, j).Some? && AfterAll(g, ats, walk, shown, vs, onPath, j).Some?
    decreases vs, 0
  {
    if vs != [] {
      var k := |vs| - 1;
      ZeroAllEncode(g, ats, walk[..k], shown[..k], vs[..k], onPath, path, j);
      ZeroEncodes(g, ats, vs[k], onPath, path, j);
      ZeroEncodes(g, ats, vs[k], onPath, {}, j);
    }
  }

  lemma {:induction false} AfterCount(g: Heap, ats: seq<nat>, vs: seq<Value>, onPath: set<nat>, j: Json)
    requires Closed(g, |g|) && |ats| == |g| && RefersAll(g, |g|, vs)
    ensures var every := Every(|vs|);
      AfterAll(g, ats, every, every, vs, onPath, j).Some? ==> |AfterAll(g, ats, every, every, vs, onPath, j).value| == |vs|
    decreases |vs|
  {
    if vs != [] {
      var k := |vs| - 1;
      assert Every(|vs|)[..k] == Every(k);
      AfterCount(g, ats, vs[..k], onPath, j);
    }
  }

  /** What is zero once emptied was zero. */
  lemma ZeroAfterIsZero(v: Value)
    ensures ZeroAfter(v) ==> IsZero(v)
  {
  }

  /** The copy, its encoder writing a nil slice as j, against the input with a nil slice as k: both encode
      or neither does, and they agree exactly when q lets all stand that does. */
  lemma Compare(g: Heap, ats: seq<nat>, v: Value, onPath: set<nat>, j: Json, k: Json)
    requires Closed(g, |g|) && |ats| == |g| && Refers(g, |g|, v)
    ensures After(g, ats, v, onPath, j).Some? <==> Encoded(g, |g|, v, {}, k).Some?
    ensures After(g, ats, v, onPath, j).Some? ==>
              (After(g, ats, v, onPath, j) == Encoded(g, |g|, v, {}, k)
               <==> May(g, ats, v, onPath, Query(k == EMPTY, j == k, false)))
    decreases Off(ats, onPath), v, 1
  {
    match v
    case Interface(d) => Compare(g, ats, d, onPath, j, k);
    case Slice(es) => CompareAll(g, ats, Every(|es|), Every(|es|), Every(|es|), es, onPath, j, k);
    case Array(es) => CompareAll(g, ats, Every(|es|), Every(|es|), Every(|es|), es, onPath, j, k);
    case Struct(ls, fs) =>
      var before, shown := Shown(g, ls, fs), ShownAfter(g, ls, fs);
      forall i | 0 <= i < |fs|
        ensures before[i] ==> shown[i]
        ensures shown[i] && !before[i] ==> Settable(ls)[i] && IsZero(fs[i])
      {
        ZeroAfterIsZero(fs[i]);
      }
      CompareAll(g, ats, Settable(ls), before, shown, fs, onPath, j, k);
      if MayAll(g, ats, Settable(ls), before, shown, fs, onPath, Query(k == EMPTY, j == k, false)) {
        NothingUncovered(g, ats, Settable(ls), before, shown, fs, onPath, Query(k == EMPTY, j == k, false));
        assert before == shown;
      }
    case Pointer(a) => CompareObject(g, ats, v, a, onPath, j, k);
    case MapRef(a) => CompareObject(g, ats, v, a, onPath, j, k);
    case _ =>
  }

  lemma {:induction false} NothingUncovered(
    g: Heap, ats: seq<nat>, walk: seq<bool>, before: seq<bool>, shown: seq<bool>, vs: seq<Value>, onPath: set<nat>, q: Query)
    requires Closed(g, |g|) && |ats| == |g| && RefersAll(g, |g|, vs) && |walk| == |before| == |shown| == |vs|
    requires MayAll(g, ats, walk, before, shown, vs, onPath, q) && !q.uncovered
    ensures forall i | 0 <= i < |vs| :: shown[i] ==> before[i]
    decreases |vs|
  {
    if vs != [] {
      var k := |vs| - 1;
      NothingUncovered(g, ats, walk[..k], before[..k], shown[..k], vs[..k], onPath, q);
      assert forall i | 0 <= i < k :: shown[..k][i] == shown[i] && before[..k][i] == before[i];
    }
  }

  lemma CompareObject(g: Heap, ats: seq<nat>, v: Value, a: nat, onPath: set<nat>, j: Json, k: Json)
    requires Closed(g, |g|) && |ats| == |g| && Refers(g, |g|, v) && (v == Pointer(a) || v == MapRef(a))
    ensures After(g, ats, v, onPath, j).Some? <==> Encoded(g, |g|, v, {}, k).Some?
    ensures After(g, ats, v, onPath, j).Some? ==>
              (After(g, ats, v, onPath, j) == Encoded(g, |g|, v, {}, k)
               <==> May(g, ats, v, onPath, Query(k == EMPTY, j == k, false)))
    decreases Off(ats, onPath), v, 0
  {
    if ats[a] in onPath {
      if j != k {
        EncodesEitherWay(g, |g|, v, {}, j, k);
      }
    } else {
      var every, contents := Every(|g[a].contents|), g[a].contents;
      OffShrinks(ats, onPath, a);
      CompareAll(g, ats, every, every, every, contents, onPath + {ats[a]}, j, k);
      ContentBelowItself(g, |g|, a, k);
      assert {} + {a} == {a};
      AfterCount(g, ats, contents, onPath + {ats[a]}, j);
      EncodedCount(g, |g|, contents, {}, k);
    }
  }

  lemma CompareAll(
    g: Heap, ats: seq<nat>, walk: seq<bool>, before: seq<bool>, shown: seq<bool>, vs: seq<Value>, onPath: set<nat>,
    j: Json, k: Json)
    requires Closed(g, |g|) && |ats| == |g| && RefersAll(g, |g|, vs) && |walk| == |before| == |shown| == |vs|
    requires forall i | 0 <= i < |vs| :: (before[i] ==> shown[i]) && (shown[i] && !before[i] ==> walk[i] && IsZero(vs[i]))
    ensures var after, input := AfterAll(g, ats, walk, shown, vs, onPath, j), EncodedAll(g, |g|, before, vs, {}, k);
      && (after.Some? <==> input.Some?)
      && (after.Some? ==>
            && |after.value| >= |input.value|
            && (after == input <==> MayAll(g, ats, walk, before, shown, vs, onPath, Query(k == EMPTY, j == k, false))))
    decreases Off(ats, onPath), vs, 0
  {
    if vs != [] {
      var m := |vs| - 1;
      CompareAll(g, ats, walk[..m], before[..m], shown[..m], vs[..m], onPath, j, k);
      var after := AfterAll(g, ats, walk[..m], shown[..m], vs[..m], onPath, j);
      var input := EncodedAll(g, |g|, before[..m], vs[..m], {}, k);
      if before[m] {
        var last := if walk[m] then After(g, ats, vs[m], onPath, j) else Encoded(g, |g|, vs[m], {}, j);
        if walk[m] {
          Compare(g, ats, vs[m], onPath, j, k);
        } else if j != k {
          EncodesEitherWay(g, |g|, vs[m], {}, j, k);
        }
        SnocEqual(after, last, input, Encoded(g, |g|, vs[m], {}, k));
      } else if shown[m] {
        ZeroEncodes(g, ats, vs[m], onPath, {}, j);
      }
    }
  }

  /** The copy against itself with nil slices written another way. */
  lemma CompareAfter(g: Heap, ats: seq<nat>, v: Value, onPath: set<nat>, j: Json, k: Json)
    requires Closed(g, |g|) && |ats| == |g| && Refers(g, |g|, v) && j != k
    ensures After(g, ats, v, onPath, j).Some? <==> After(g, ats, v, onPath, k).Some?
    ensures After(g, ats, v, onPath, j).Some? ==>
              (After(g, ats, v, onPath, j) == After(g, ats, v, onPath, k) <==> May(g, ats, v, onPath, Query(true, false, true)))
    decreases Off(ats, onPath), v, 1
  {
    match v
    case Interface(d) => CompareAfter(g, ats, d, onPath, j, k);
    case Slice(es) => CompareAllAfter(g, ats, Every(|es|), Every(|es|), Every(|es|), es, onPath, j, k);
    case Array(es) => CompareAllAfter(g, ats, Every(|es|), Every(|es|), Every(|es|), es, onPath, j, k);
    case Struct(ls, fs) => CompareAllAfter(g, ats, Settable(ls), Shown(g, ls, fs), ShownAfter(g, ls, fs), fs, onPath, j, k);
    case Pointer(a) => CompareObjectAfter(g, ats, v, a, onPath, j, k);
    case MapRef(a) => CompareObjectAfter(g, ats, v, a, onPath, j, k);
    case _ =>
  }

  lemma CompareObjectAfter(g: Heap, ats: seq<nat>, v: Value, a: nat, onPath: set<nat>, j: Json, k: Json)
    requires Closed(g, |g|) && |ats| == |g| && Refers(g, |g|, v) && (v == Pointer(a) || v == MapRef(a)) && j != k
    ensures After(g, ats, v, onPath, j).Some? <==> After(g, ats, v, onPath, k).Some?
    ensures After(g, ats, v, onPath, j).Some? ==>
              (After(g, ats, v, onPath, j) == After(g, ats, v, onPath, k) <==> May(g, ats, v, onPath, Query(true, false, true)))
    decreases Off(ats, onPath), v, 0
  {
    if ats[a] in onPath {
      EncodesEitherWay(g, |g|, v, {}, j, k);
    } else {
      var every, contents := Every(|g[a].contents|), g[a].contents;
      OffShrinks(ats, onPath, a);
      CompareAllAfter(g, ats, every, every, every, contents, onPath + {ats[a]}, j, k);
      AfterCount(g, ats, contents, onPath + {ats[a]}, j);
      AfterCount(g, ats, contents, onPath + {ats[a]}, k);
    }
  }

  lemma CompareAllAfter(
    g: Heap, ats: seq<nat>, walk: seq<bool>, before: seq<bool>, shown: seq<bool>, vs: seq<Value>, onPath: set<nat>,
    j: Json, k: Json)
    requires Closed(g, |g|) && |ats| == |g| && RefersAll(g, |g|, vs) && |walk| == |before| == |shown| == |vs| && j != k
    ensures var one, other := AfterAll(g, ats, walk, shown, vs, onPath, j), AfterAll(g, ats, walk, shown, vs, onPath, k);
      && (one.Some? <==> other.Some?)
      && (one.Some? ==> (one == other <==> MayAll(g, ats, walk, before, shown, vs, onPath, Query(true, false, true))))
    decreases Off(ats, onPath), vs, 0
  {
    if vs != [] {
      var m := |vs| - 1;
      CompareAllAfter(g, ats, walk[..m], before[..m], shown[..m], vs[..m], onPath, j, k);
      if shown[m] {
        if walk[m] {
          CompareAfter(g, ats, vs[m], onPath, j, k);
        } else {
          EncodesEitherWay(g, |g|, vs[m], {}, j, k);
        }
        SnocEqual(
          AfterAll(g, ats, walk[..m], shown[..m], vs[..m], onPath, j),
          if walk[m] then After(g, ats, vs[m], onPath, j) else Encoded(g, |g|, vs[m], {}, j),
          AfterAll(g, ats, walk[..m], shown[..m], vs[..m], onPath, k),
          if walk[m] then After(g, ats, vs[m], onPath, k) else Encoded(g, |g|, vs[m], {}, k));
      }
    }
  }

  // ---- what a caller gets -----------------------------------------------------------------------------

  /** A payload: a heap all of whose objects refer to one another, their addresses, a value over it. */
  ghost predicate Payload(h: Heap, ats: seq<nat>, v: Value) {
    Closed(h, |h|) && |ats| == |h| && Refers(h, |h|, v)
  }

  /** What encoding/json writes of a value, a nil slice as nilAs; None is its cycle error. */
  ghost function Written(h: Heap, v: Value, nilAs: Json): Option<Json>
    requires Closed(h, |h|) && Refers(h, |h|, v)
  {
    Encoded(h, |h|, v, {}, nilAs)
  }

  ghost function EmptyNilSlices(h: Heap, ats: seq<nat>, v: Value): (Value, Heap)
    requires Payload(h, ats, v)
  {
    Emptied(h, ats, v, {})
  }

  /** The walk reaches every nil slice the encoder writes, and no field omitzero leaves out is zero only
      while a nil slice it holds is nil. */
  ghost predicate EveryNilSliceReached(h: Heap, ats: seq<nat>, v: Value)
    requires Payload(h, ats, v)
  {
    May(h, ats, v, {}, Query(true, false, false))
  }

  /** The walk reaches no nil slice the encoder writes, nor one that omitzero leaves out. */
  ghost predicate NoNilSliceReached(h: Heap, ats: seq<nat>, v: Value)
    requires Payload(h, ats, v)
  {
    May(h, ats, v, {}, Query(false, true, false))
  }

  /** The walk reaches every nil slice the encoder writes of the copy. */
  ghost predicate NoNilSliceMissed(h: Heap, ats: seq<nat>, v: Value)
    requires Payload(h, ats, v)
  {
    May(h, ats, v, {}, Query(true, false, true))
  }

  /** The input is never written to, and the copy is a payload that encodes exactly when the input does:
      a cycle is left for encoding/json to report. */
  lemma InputIsKept(h: Heap, ats: seq<nat>, v: Value, j: Json)
    requires Payload(h, ats, v)
    ensures var (v', h') := EmptyNilSlices(h, ats, v);
      && h <= h' && Closed(h', |h'|) && Refers(h', |h'|, v')
      && (Written(h', v', j).Some? <==> Written(h, v, j).Some?)
  {
    EmptiedEncodes(h, h, ats, v, {}, j);
    Compare(h, ats, v, {}, j, j);
  }

  /** The copy encodes as the input would if encoding/json wrote every nil slice as [], exactly when the
      walk reaches every one that is written and uncovers none; or nothing encodes at all. */
  lemma CopyEncodesWithoutNulls(h: Heap, ats: seq<nat>, v: Value)
    requires Payload(h, ats, v)
    ensures var (v', h') := EmptyNilSlices(h, ats, v);
      && Closed(h', |h'|) && Refers(h', |h'|, v')
      && (Written(h', v', JNull) == Written(h, v, EMPTY) <==> Written(h, v, EMPTY).None? || EveryNilSliceReached(h, ats, v))
  {
    EmptiedEncodes(h, h, ats, v, {}, JNull);
    Compare(h, ats, v, {}, JNull, EMPTY);
  }

  /** How the encoder would write a nil slice stops mattering exactly when the walk misses none. */
  lemma NoNilSliceLeft(h: Heap, ats: seq<nat>, v: Value, j: Json, j': Json)
    requires Payload(h, ats, v) && j != j'
    ensures var (v', h') := EmptyNilSlices(h, ats, v);
      && Closed(h', |h'|) && Refers(h', |h'|, v')
      && (Written(h', v', j) == Written(h', v', j') <==> Written(h, v, j).None? || NoNilSliceMissed(h, ats, v))
  {
    EmptiedEncodes(h, h, ats, v, {}, j);
    EmptiedEncodes(h, h, ats, v, {}, j');
    Compare(h, ats, v, {}, j, j);
    CompareAfter(h, ats, v, {}, j, j');
  }

  /** A pass changes nothing that is written exactly when it reaches no nil slice. */
  lemma NothingToEmpty(h: Heap, ats: seq<nat>, v: Value)
    requires Payload(h, ats, v)
    ensures var (v', h') := EmptyNilSlices(h, ats, v);
      && Closed(h', |h'|) && Refers(h', |h'|, v')
      && (Written(h', v', JNull) == Written(h, v, JNull) <==> Written(h, v, JNull).None? || NoNilSliceReached(h, ats, v))
  {
    EmptiedEncodes(h, h, ats, v, {}, JNull);
    Compare(h, ats, v, {}, JNull, JNull);
  }

  // ---- payloads without the exceptions ------------------------------------------------------------------

  ghost predicate Injective(ats: seq<nat>) {
    forall a, b | 0 <= a < b < |ats| :: ats[a] != ats[b]
  }

  /** The addresses on the walk's path are those of the objects being encoded. */
  ghost predicate Marks(ats: seq<nat>, path: set<nat>, onPath: set<nat>) {
    forall a | 0 <= a < |ats| :: ats[a] in onPath <==> a in path
  }

  lemma MarksGrow(ats: seq<nat>, path: set<nat>, onPath: set<nat>, a: nat)
    requires Injective(ats) && Marks(ats, path, onPath) && a < |ats|
    ensures Marks(ats, path + {a}, onPath + {ats[a]})
  {
    forall b | 0 <= b < |ats| ensures ats[b] in onPath + {ats[a]} <==> b in path + {a} {
      assert ats[b] == ats[a] ==> b == a;
    }
  }

  lemma {:induction false} EachEncodes(h: Heap, n: nat, mask: seq<bool>, vs: seq<Value>, path: set<nat>, j: Json)
    requires Closed(h, n) && RefersAll(h, n, vs) && |mask| == |vs|
    requires EncodedAll(h, n, mask, vs, path, j).Some?
    ensures forall i | 0 <= i < |vs| && mask[i] :: Encoded(h, n, vs[i], path, j).Some?
    decreases |vs|
  {
    if vs != [] {
      var k := |vs| - 1;
      EachEncodes(h, n, mask[..k], vs[..k], path, j);
      assert forall i | 0 <= i < k && mask[i] :: mask[..k][i] && Encoded(h, n, vs[..k][i], path, j).Some?;
    }
  }

  /** Every field that is seen can be set, and none that omitzero leaves out holds a nil slice. */
  ghost predicate Tame(v: Value) {
    match v
    case Interface(d) => Tame(d)
    case Slice(es) => forall i | 0 <= i < |es| :: Tame(es[i])
    case Array(es) => forall i | 0 <= i < |es| :: Tame(es[i])
    case Struct(ls, fs) =>
      |ls| == |fs| && forall i | 0 <= i < |fs| ::
        Tame(fs[i]) && (ls[i].seen ==> ls[i].settable && (ls[i].omitZero && IsZero(fs[i]) ==> ZeroAfter(fs[i])))
    case _ => true
  }

  ghost predicate TameAll(vs: seq<Value>) {
    forall i | 0 <= i < |vs| :: Tame(vs[i])
  }

  lemma TameIsReached(g: Heap, ats: seq<nat>, v: Value, onPath: set<nat>, path: set<nat>)
    requires Closed(g, |g|) && |ats| == |g| && Refers(g, |g|, v)
    requires Injective(ats) && Marks(ats, path, onPath) && Encoded(g, |g|, v, path, EMPTY).Some?
    requires Tame(v) && forall a | 0 <= a < |g| :: TameAll(g[a].contents)
    ensures May(g, ats, v, onPath, Query(true, false, false))
    decreases Off(ats, onPath), v, 1
  {
    match v
    case Interface(d) => TameIsReached(g, ats, d, onPath, path);
    case Slice(es) => TameAllReached(g, ats, Every(|es|), Every(|es|), es, onPath, path);
    case Array(es) => TameAllReached(g, ats, Every(|es|), Every(|es|), es, onPath, path);
    case Struct(ls, fs) =>
      assert ShownAfter(g, ls, fs) == Shown(g, ls, fs) by {
        forall i | 0 <= i < |fs| ensures ShownAfter(g, ls, fs)[i] == Shown(g, ls, fs)[i] {
          ZeroAfterIsZero(fs[i]);
        }
      }
      TameAllReached(g, ats, Settable(ls), Shown(g, ls, fs), fs, onPath, path);
    case Pointer(a) =>
      OffShrinks(ats, onPath, a);
      MarksGrow(ats, path, onPath, a);
      TameAllReached(g, ats, Every(|g[a].contents|), Every(|g[a].contents|), g[a].contents, onPath + {ats[a]}, path + {a});
    case MapRef(a) =>
      OffShrinks(ats, onPath, a);
      MarksGrow(ats, path, onPath, a);
      TameAllReached(g, ats, Every(|g[a].contents|), Every(|g[a].contents|), g[a].contents, onPath + {ats[a]}, path + {a});
    case _ =>
  }

  lemma TameAllReached(
    g: Heap, ats: seq<nat>, walk: seq<bool>, shown: seq<bool>, vs: seq<Value>, onPath: set<nat>, path: set<nat>)
    requires Closed(g, |g|) && |ats| == |g| && RefersAll(g, |g|, vs) && |walk| == |shown| == |vs|
    requires Injective(ats) && Marks(ats, path, onPath) && EncodedAll(g, |g|, shown, vs, path, EMPTY).Some?
    requires TameAll(vs) && forall a | 0 <= a < |g| :: TameAll(g[a].contents)
    requires forall i | 0 <= i < |vs| :: shown[i] ==> walk[i]
    ensures MayAll(g, ats, walk, shown, shown, vs, onPath, Query(true, false, false))
    decreases Off(ats, onPath), vs, 0
  {
    if vs != [] {
      var k := |vs| - 1;
      TameAllReached(g, ats, walk[..k], shown[..k], vs[..k], onPath, path);
      if shown[k] {
        TameIsReached(g, ats, vs[k], onPath, path);
      }
    }
  }

  /** So the promise holds of every payload whose objects have addresses of their own, whose seen fields
      can all be set, and whose omitzero fields hold no nil slice. */
  lemma TamePayloadsEncodeWithoutNulls(h: Heap, ats: seq<nat>, v: Value)
    requires Payload(h, ats, v) && Injective(ats) && Tame(v) && forall a | 0 <= a < |h| :: TameAll(h[a].contents)
    ensures var (v', h') := EmptyNilSlices(h, ats, v);
      Closed(h', |h'|) && Refers(h', |h'|, v') && Written(h', v', JNull) == Written(h, v, EMPTY)
  {
    CopyEncodesWithoutNulls(h, ats, v);
    if Written(h, v, EMPTY).Some? {
      TameIsReached(h, ats, v, {}, {});
    }
  }

  // ---- a second pass --------------------------------------------------------------------------------------

  /** A second pass, over whatever the first has left, changes nothing that is written exactly when it
      reaches no nil slice there. */
  lemma SecondPassIsIdle(h: Heap, ats: seq<nat>, v: Value, ats1: seq<nat>)
    requires Payload(h, ats, v)
    requires |ats1| == |EmptyNilSlices(h, ats, v).1|
    ensures var (v1, h1) := EmptyNilSlices(h, ats, v);
      && Payload(h1, ats1, v1)
      && var (v2, h2) := EmptyNilSlices(h1, ats1, v1);
      && Closed(h2, |h2|) && Refers(h2, |h2|, v2)
      && (Written(h2, v2, JNull) == Written(h1, v1, JNull)
          <==> Written(h, v, JNull).None? || NoNilSliceReached(h1, ats1, v1))
  {
    InputIsKept(h, ats, v, JNull);
    var (v1, h1) := EmptyNilSlices(h, ats, v);
    NothingToEmpty(h1, ats1, v1);
  }

  const IDLE := Query(false, true, false)

  /** Read off the input, whether a second pass finds nothing more to empty in the first one's copy: what
      the first kept as it was, because its address was on the path, the second walks from the top. No
      such reference may be met at all unless later. */
  ghost predicate Finished(g: Heap, ats: seq<nat>, v: Value, onPath: set<nat>, later: bool)
    requires Closed(g, |g|) && |ats| == |g| && Refers(g, |g|, v)
    decreases Off(ats, onPath), v, 1
  {
    match v
    case Interface(d) => Finished(g, ats, d, onPath, later)
    case Slice(es) => FinishedAll(g, ats, Every(|es|), Every(|es|), es, onPath, later)
    case Array(es) => FinishedAll(g, ats, Every(|es|), Every(|es|), es, onPath, later)
    case Struct(ls, fs) => FinishedAll(g, ats, Settable(ls), ShownAfter(g, ls, fs), fs, onPath, later)
    case Pointer(a) =>
      if ats[a] in onPath then later && May(g, ats, v, {}, IDLE)
      else
        OffShrinks(ats, onPath, a);
        FinishedAll(g, ats, Every(|g[a].contents|), Every(|g[a].contents|), g[a].contents, onPath + {ats[a]}, later)
    case MapRef(a) =>
      if ats[a] in onPath then later && May(g, ats, v, {}, IDLE)
      else
        OffShrinks(ats, onPath, a);
        FinishedAll(g, ats, Every(|g[a].contents|), Every(|g[a].contents|), g[a].contents, onPath + {ats[a]}, later)
    case _ => true
  }

  ghost predicate FinishedAll(
    g: Heap, ats: seq<nat>, walk: seq<bool>, shown: seq<bool>, vs: seq<Value>, onPath: set<nat>, later: bool)
    requires Closed(g, |g|) && |ats| == |g| && RefersAll(g, |g|, vs) && |walk| == |shown| == |vs|
    decreases Off(ats, onPath), vs, 0
  {
    vs == [] ||
    var k := |vs| - 1;
    && FinishedAll(g, ats, walk[..k], shown[..k], vs[..k], onPath, later)
    && (shown[k] && walk[k] ==> Finished(g, ats, vs[k], onPath, later))
  }

  /** h' and its addresses extend g and its own. */
  ghost predicate Extended(g: Heap, ats: seq<nat>, h': Heap, ats': seq<nat>) {
    Closed(g, |g|) && |ats| == |g| && Closed(h', |h'|) && |ats'| == |h'| && g <= h' && ats <= ats'
  }

  /** A second pass looks only at what v refers to, and at whether its addresses are on the path. */
  lemma IdleFrame(g: Heap, ats: seq<nat>, h': Heap, ats': seq<nat>, v: Value, onPath: set<nat>, onPath': set<nat>)
    requires Extended(g, ats, h', ats') && Refers(g, |g|, v) && Refers(h', |h'|, v)
    requires forall a | 0 <= a < |g| :: ats[a] in onPath <==> ats[a] in onPath'
    ensures May(g, ats, v, onPath, IDLE) <==> May(h', ats', v, onPath', IDLE)
    decreases Off(ats, onPath), v, 1
  {
    match v
    case Interface(d) => IdleFrame(g, ats, h', ats', d, onPath, onPath');
    case Slice(es) => IdleAllFrame(g, ats, h', ats', Every(|es|), Every(|es|), Every(|es|), es, onPath, onPath');
    case Array(es) => IdleAllFrame(g, ats, h', ats', Every(|es|), Every(|es|), Every(|es|), es, onPath, onPath');
    case Struct(ls, fs) =>
      ShownInLarger(g, h', ls, fs);
      IdleAllFrame(g, ats, h', ats', Settable(ls), Shown(g, ls, fs), ShownAfter(g, ls, fs), fs, onPath, onPath');
    case Pointer(a) => IdleObjectFrame(g, ats, h', ats', v, a, onPath, onPath');
    case MapRef(a) => IdleObjectFrame(g, ats, h', ats', v, a, onPath, onPath');
    case _ =>
  }

  lemma ShownInLarger(g: Heap, h: Heap, ls: seq<Label>, fs: seq<Value>)
    requires g <= h && |ls| == |fs| && RefersAll(g, |g|, fs)
    ensures Shown(g, ls, fs) == Shown(h, ls, fs) && ShownAfter(g, ls, fs) == ShownAfter(h, ls, fs)
  {
    forall i | 0 <= i < |fs|
      ensures Shown(g, ls, fs)[i] == Shown(h, ls, fs)[i] && ShownAfter(g, ls, fs)[i] == ShownAfter(h, ls, fs)[i]
    {
      EmptyInLarger(g, h, fs[i]);
    }
  }

  lemma IdleObjectFrame(
    g: Heap, ats: seq<nat>, h': Heap, ats': seq<nat>, v: Value, a: nat, onPath: set<nat>, onPath': set<nat>)
    requires Extended(g, ats, h', ats') && Refers(g, |g|, v) && Refers(h', |h'|, v) && (v == Pointer(a) || v == MapRef(a))
    requires forall b | 0 <= b < |g| :: ats[b] in onPath <==> ats[b] in onPath'
    ensures May(g, ats, v, onPath, IDLE) <==> May(h', ats', v, onPath', IDLE)
    decreases Off(ats, onPath), v, 0
  {
    assert h'[a] == g[a] && ats'[a] == ats[a];
    if ats[a] !in onPath {
      var every, contents := Every(|g[a].contents|), g[a].contents;
      OffShrinks(ats, onPath, a);
      OffShrinks(ats', onPath', a);
      IdleAllFrame(g, ats, h', ats', every, every, every, contents, onPath + {ats[a]}, onPath' + {ats[a]});
    }
  }

  lemma IdleAllFrame(
    g: Heap, ats: seq<nat>, h': Heap, ats': seq<nat>, walk: seq<bool>, before: seq<bool>, shown: seq<bool>, vs: seq<Value>,
    onPath: set<nat>, onPath': set<nat>)
    requires Extended(g, ats, h', ats') && RefersAll(g, |g|, vs) && RefersAll(h', |h'|, vs)
    requires |walk| == |before| == |shown| == |vs|
    requires forall a | 0 <= a < |g| :: ats[a] in onPath <==> ats[a] in onPath'
    ensures MayAll(g, ats, walk, before, shown, vs, onPath, IDLE) <==> MayAll(h', ats', walk, before, shown, vs, onPath', IDLE)
    decreases Off(ats, onPath), vs, 0
  {
    if vs != [] {
      var k := |vs| - 1;
      IdleAllFrame(g, ats, h', ats', walk[..k], before[..k], shown[..k], vs[..k], onPath, onPath');
      IdleFrame(g, ats, h', ats', vs[k], onPath, onPath');
    }
  }

  /** Objects made from the n-th on have addresses of their own. */
  ghost predicate Fresh(ats: seq<nat>, n: nat) {
    forall a, b | 0 <= a < b < |ats| && n <= b :: ats[a] != ats[b]
  }

  /** Where the second pass stands: in the heap the first has left. Told later, the copies have addresses
      of their own and none of the first m objects' addresses is on its path. */
  ghost predicate Second(
    g: Heap, ats: seq<nat>, m: nat, h': Heap, ats': seq<nat>, onPath': set<nat>, later: bool)
  {
    && Closed(h', |h'|) && |ats'| == |h'| && m <= |h'|
    && (later ==> Extended(g, ats, h', ats') && Fresh(ats', |g|) && forall a | 0 <= a < m :: ats'[a] !in onPath')
  }

  /** What a second pass makes of the copy of v, read off v: exactly, when the copies have addresses of
      their own; wherever they are, if no reference was kept as it was. */
  ghost predicate Told(may: bool, finished: bool, later: bool) {
    if later then may <==> finished else finished ==> may
  }

  lemma CopyIsFinished(
    g: Heap, h: Heap, ats: seq<nat>, v: Value, onPath: set<nat>, h': Heap, ats': seq<nat>, onPath': set<nat>, later: bool)
    requires |ats| == |g| && Closed(g, |g|) && g <= h && Closed(h, |g|) && Closed(h, |h|)
    requires Refers(g, |g|, v) && Refers(h, |g|, v)
    requires Emptied(h, ats, v, onPath).1 <= h' && Second(g, ats, |Emptied(h, ats, v, onPath).1|, h', ats', onPath', later)
    ensures var v' := Emptied(h, ats, v, onPath).0;
      Refers(h', |h'|, v') && Told(May(h', ats', v', onPath', IDLE), Finished(g, ats, v, onPath, later), later)
    decreases Off(ats, onPath), v, 2
  {
    EmptiedCopies(h, ats, v, onPath);
    Grows(Emptied(h, ats, v, onPath).1, h', Emptied(h, ats, v, onPath).0);
    match v
    case Interface(d) => CopyIsFinished(g, h, ats, d, onPath, h', ats', onPath', later);
    case Slice(es) => CopiesAreFinished(g, h, ats, Every(|es|), Every(|es|), es, onPath, h', ats', onPath', later);
    case Array(es) => CopiesAreFinished(g, h, ats, Every(|es|), Every(|es|), es, onPath, h', ats', onPath', later);
    case Struct(ls, fs) => StructCopyIsFinished(g, h, ats, ls, fs, onPath, h', ats', onPath', later);
    case Pointer(a) => ObjectCopyIsFinished(g, h, ats, v, a, onPath, h', ats', onPath', later);
    case MapRef(a) => ObjectCopyIsFinished(g, h, ats, v, a, onPath, h', ats', onPath', later);
    case _ =>
  }

  lemma StructCopyIsFinished(
    g: Heap, h: Heap, ats: seq<nat>, ls: seq<Label>, fs: seq<Value>, onPath: set<nat>,
    h': Heap, ats': seq<nat>, onPath': set<nat>, later: bool)
    requires |ats| == |g| && Closed(g, |g|) && g <= h && Closed(h, |g|) && Closed(h, |h|)
    requires |ls| == |fs| && RefersAll(g, |g|, fs) && RefersAll(h, |g|, fs)
    requires var h1 := EmptiedAll(h, ats, Settable(ls), fs, onPath).1;
      h1 <= h' && Second(g, ats, |h1|, h', ats', onPath', later)
    ensures var copies := EmptiedAll(h, ats, Settable(ls), fs, onPath).0;
      && |copies| == |ls| && RefersAll(h', |h'|, copies)
      && Told(May(h', ats', Struct(ls, copies), onPath', IDLE), Finished(g, ats, Struct(ls, fs), onPath, later), later)
    decreases Off(ats, onPath), fs, 1
  {
    var (copies, h1) := EmptiedAll(h, ats, Settable(ls), fs, onPath);
    EmptiedAllCopies(h, ats, Settable(ls), fs, onPath);
    ShownOfCopy(g, h, ats, ls, fs, onPath);
    var shown := ShownAfter(g, ls, fs);
    forall i | 0 <= i < |fs|
      ensures Refers(h', |h'|, copies[i]) && Shown(h', ls, copies)[i] == shown[i] == ShownAfter(h', ls, copies)[i]
    {
      Grows(h1, h', copies[i]);
      assert Shown(h1, ls, copies)[i] == shown[i];
    }
    assert Shown(h', ls, copies) == shown && ShownAfter(h', ls, copies) == shown;
    CopiesAreFinished(g, h, ats, Settable(ls), shown, fs, onPath, h', ats', onPath', later);
  }

  lemma ObjectCopyIsFinished(
    g: Heap, h: Heap, ats: seq<nat>, v: Value, a: nat, onPath: set<nat>,
    h': Heap, ats': seq<nat>, onPath': set<nat>, later: bool)
    requires |ats| == |g| && Closed(g, |g|) && g <= h && Closed(h, |g|) && Closed(h, |h|)
    requires Refers(g, |g|, v) && Refers(h, |g|, v) && (v == Pointer(a) || v == MapRef(a))
    requires Emptied(h, ats, v, onPath).1 <= h' && Second(g, ats, |Emptied(h, ats, v, onPath).1|, h', ats', onPath', later)
    ensures var v' := Emptied(h, ats, v, onPath).0;
      Refers(h', |h'|, v') && Told(May(h', ats', v', onPath', IDLE), Finished(g, ats, v, onPath, later), later)
    decreases Off(ats, onPath), v, 1
  {
    EmptiedCopies(h, ats, v, onPath);
    Grows(Emptied(h, ats, v, onPath).1, h', Emptied(h, ats, v, onPath).0);
    if ats[a] in onPath {
      if later {
        IdleFrame(g, ats, h', ats', v, {}, onPath');
      }
    } else {
      NewObjectIsFinished(g, h, ats, v, a, onPath, h', ats', onPath', later);
    }
  }

  lemma NewObjectIsFinished(
    g: Heap, h: Heap, ats: seq<nat>, v: Value, a: nat, onPath: set<nat>,
    h': Heap, ats': seq<nat>, onPath': set<nat>, later: bool)
    requires |ats| == |g| && Closed(g, |g|) && g <= h && Closed(h, |g|) && Closed(h, |h|)
    requires Refers(g, |g|, v) && Refers(h, |g|, v) && (v == Pointer(a) || v == MapRef(a)) && ats[a] !in onPath
    requires Emptied(h, ats, v, onPath).1 <= h' && Second(g, ats, |Emptied(h, ats, v, onPath).1|, h', ats', onPath', later)
    requires Refers(h', |h'|, Emptied(h, ats, v, onPath).0)
    ensures Told(May(h', ats', Emptied(h, ats, v, onPath).0, onPath', IDLE), Finished(g, ats, v, onPath, later), later)
    decreases Off(ats, onPath), v, 0
  {
    var every, contents := Every(|g[a].contents|), g[a].contents;
    assert h[a] == g[a];
    OffShrinks(ats, onPath, a);
    var (copies, h1) := EmptiedAll(h, ats, every, contents, onPath + {ats[a]});
    assert h1 <= h' && h'[|h1|].contents == copies;
    CopiesAreFinished(g, h, ats, every, every, contents, onPath + {ats[a]}, h', ats', onPath' + {ats'[|h1|]}, later);
  }

  /** All but the last of the copies are those of all but the last value. */
  lemma CopiesSnoc(g: Heap, h: Heap, ats: seq<nat>, walk: seq<bool>, vs: seq<Value>, onPath: set<nat>)
    requires |ats| == |g| && Closed(g, |g|) && g <= h && Closed(h, |g|) && Closed(h, |h|)
    requires RefersAll(g, |g|, vs) && RefersAll(h, |g|, vs) && |walk| == |vs| && vs != []
    ensures var k := |vs| - 1;
      var (vs', h') := EmptiedAll(h, ats, walk, vs, onPath);
      var (copies, h1) := EmptiedAll(h, ats, walk[..k], vs[..k], onPath);
      && vs'[..k] == copies && h <= h1 <= h' && Closed(h1, |h1|) && Closed(h1, |g|) && Refers(h1, |g|, vs[k])
      && (walk[k] ==> Emptied(h1, ats, vs[k], onPath) == (vs'[k], h'))
      && (!walk[k] ==> h1 == h')
  {
    var k := |vs| - 1;
    EmptiedAllCopies(h, ats, walk[..k], vs[..k], onPath);
    var h1 := EmptiedAll(h, ats, walk[..k], vs[..k], onPath).1;
    KeepsRefs(h, h1, |g|, vs[k]);
    KeepsClosed(h, h1, |g|);
  }

  lemma CopiesRefer(
    h: Heap, ats: seq<nat>, walk: seq<bool>, vs: seq<Value>, onPath: set<nat>, h': Heap)
    requires Closed(h, |ats|) && Closed(h, |h|) && RefersAll(h, |ats|, vs) && |walk| == |vs|
    requires EmptiedAll(h, ats, walk, vs, onPath).1 <= h' && Closed(h', |h'|)
    ensures RefersAll(h', |h'|, EmptiedAll(h, ats, walk, vs, onPath).0)
  {
    EmptiedAllCopies(h, ats, walk, vs, onPath);
    var (vs', h1) := EmptiedAll(h, ats, walk, vs, onPath);
    forall i | 0 <= i < |vs'| ensures Refers(h', |h'|, vs'[i]) {
      Grows(h1, h', vs'[i]);
    }
  }

  lemma CopiesAreFinished(
    g: Heap, h: Heap, ats: seq<nat>, walk: seq<bool>, shown: seq<bool>, vs: seq<Value>, onPath: set<nat>,
    h': Heap, ats': seq<nat>, onPath': set<nat>, later: bool)
    requires |ats| == |g| && Closed(g, |g|) && g <= h && Closed(h, |g|) && Closed(h, |h|)
    requires RefersAll(g, |g|, vs) && RefersAll(h, |g|, vs) && |walk| == |shown| == |vs|
    requires var h1 := EmptiedAll(h, ats, walk, vs, onPath).1; h1 <= h' && Second(g, ats, |h1|, h', ats', onPath', later)
    ensures var vs' := EmptiedAll(h, ats, walk, vs, onPath).0;
      && |vs'| == |vs| && RefersAll(h', |h'|, vs')
      && Told(MayAll(h', ats', walk, shown, shown, vs', onPath', IDLE),
              FinishedAll(g, ats, walk, shown, vs, onPath, later), later)
    decreases Off(ats, onPath), vs, 0
  {
    CopiesRefer(h, ats, walk, vs, onPath, h');
    if vs != [] {
      var k := |vs| - 1;
      var h1 := EmptiedAll(h, ats, walk[..k], vs[..k], onPath).1;
      CopiesSnoc(g, h, ats, walk, vs, onPath);
      CopiesAreFinished(g, h, ats, walk[..k], shown[..k], vs[..k], onPath, h', ats', onPath', later);
      if shown[k] && walk[k] {
        CopyIsFinished(g, h1, ats, vs[k], onPath, h', ats', onPath', later);
      }
    }
  }

  /** Emptying a second time changes nothing that is written exactly when no reference that the first pass
      kept as it was leads to a nil slice the second reaches; the copies have addresses of their own. */
  lemma EmptyingTwice(h: Heap, ats: seq<nat>, v: Value, ats1: seq<nat>)
    requires Payload(h, ats, v)
    requires |ats1| == |EmptyNilSlices(h, ats, v).1| && ats <= ats1 && Fresh(ats1, |h|)
    ensures var (v1, h1) := EmptyNilSlices(h, ats, v);
      && Payload(h1, ats1, v1)
      && var (v2, h2) := EmptyNilSlices(h1, ats1, v1);
      && Closed(h2, |h2|) && Refers(h2, |h2|, v2)
      && (Written(h2, v2, JNull) == Written(h1, v1, JNull)
          <==> Written(h, v, JNull).None? || Finished(h, ats, v, {}, true))
  {
    SecondPassIsIdle(h, ats, v, ats1);
    CopyIsFinished(h, h, ats, v, {}, EmptyNilSlices(h, ats, v).1, ats1, {}, true);
  }

  /** Of an input that encodes, over addresses of its own, no reference is kept as it was. */
  lemma InjectiveIsFinished(g: Heap, ats: seq<nat>, v: Value, onPath: set<nat>, path: set<nat>)
    requires Closed(g, |g|) && |ats| == |g| && Refers(g, |g|, v)
    requires Injective(ats) && Marks(ats, path, onPath) && Encoded(g, |g|, v, path, EMPTY).Some?
    ensures Finished(g, ats, v, onPath, false)
    decreases Off(ats, onPath), v, 1
  {
    match v
    case Interface(d) => InjectiveIsFinished(g, ats, d, onPath, path);
    case Slice(es) => InjectiveAllFinished(g, ats, Every(|es|), Every(|es|), Every(|es|), es, onPath, path);
    case Array(es) => InjectiveAllFinished(g, ats, Every(|es|), Every(|es|), Every(|es|), es, onPath, path);
    case Struct(ls, fs) =>
      InjectiveAllFinished(g, ats, Settable(ls), Shown(g, ls, fs), ShownAfter(g, ls, fs), fs, onPath, path);
    case Pointer(a) =>
      OffShrinks(ats, onPath, a);
      MarksGrow(ats, path, onPath, a);
      var every := Every(|g[a].contents|);
      InjectiveAllFinished(g, ats, every, every, every, g[a].contents, onPath + {ats[a]}, path + {a});
    case MapRef(a) =>
      OffShrinks(ats, onPath, a);
      MarksGrow(ats, path, onPath, a);
      var every := Every(|g[a].contents|);
      InjectiveAllFinished(g, ats, every, every, every, g[a].contents, onPath + {ats[a]}, path + {a});
    case _ =>
  }

  lemma InjectiveAllFinished(
    g: Heap, ats: seq<nat>, walk: seq<bool>, before: seq<bool>, shown: seq<bool>, vs: seq<Value>,
    onPath: set<nat>, path: set<nat>)
    requires Closed(g, |g|) && |ats| == |g| && RefersAll(g, |g|, vs) && |walk| == |before| == |shown| == |vs|
    requires Injective(ats) && Marks(ats, path, onPath) && EncodedAll(g, |g|, before, vs, path, EMPTY).Some?
    requires forall i | 0 <= i < |vs| && shown[i] && !before[i] :: IsZero(vs[i])
    ensures FinishedAll(g, ats, walk, shown, vs, onPath, false)
    decreases Off(ats, onPath), vs, 0
  {
    if vs != [] {
      var k := |vs| - 1;
      InjectiveAllFinished(g, ats, walk[..k], before[..k], shown[..k], vs[..k], onPath, path);
      if shown[k] && walk[k] {
        if !before[k] {
          ZeroEncodes(g, ats, vs[k], onPath, path, EMPTY);
        }
        InjectiveIsFinished(g, ats, vs[k], onPath, path);
      }
    }
  }

  /** When no two objects share an address a second pass changes nothing, whatever the first has missed
      and wherever its copies were put. */
  lemma EmptyingTwiceChangesNothing(h: Heap, ats: seq<nat>, v: Value, ats1: seq<nat>)
    requires Payload(h, ats, v) && Injective(ats)
    requires |ats1| == |EmptyNilSlices(h, ats, v).1|
    ensures var (v1, h1) := EmptyNilSlices(h, ats, v);
      && Payload(h1, ats1, v1)
      && var (v2, h2) := EmptyNilSlices(h1, ats1, v1);
      && Closed(h2, |h2|) && Refers(h2, |h2|, v2)
      && Written(h2, v2, JNull) == Written(h1, v1, JNull)
  {
    SecondPassIsIdle(h, ats, v, ats1);
    if Written(h, v, JNull).Some? {
      EncodesEitherWay(h, |h|, v, {}, JNull, EMPTY);
      InjectiveIsFinished(h, ats, v, {}, {});
      CopyIsFinished(h, h, ats, v, {}, EmptyNilSlices(h, ats, v).1, ats1, {}, false);
    }
  }

  // ---- where the promise fails ------------------------------------------------------------------------------

  const PLAIN := Label("tags", true, true, false, false)

  /** One field, holding a nil slice. */
  function OneField(field: Label): Value { Struct([field], [NilSlice]) }

  lemma OneFieldEncodes(h: Heap, field: Label, j: Json)
    requires Closed(h, |h|) && field.seen && !field.omitEmpty
    ensures Written(h, OneField(field), j) == Some(if field.omitZero then JObject([], []) else JObject([field.name], [j]))
  {
    var ls, fs: seq<Value> := [field], [NilSlice];
    var shown := Shown(h, ls, fs);
    assert shown == [!field.omitZero];
    assert ls[..0] == [] && fs[..0] == [] && shown[..0] == [];
    assert Names(ls[..0], shown[..0]) == [] && EncodedAll(h, |h|, shown[..0], fs[..0], {}, j) == Some([]);
    assert Names(ls, shown) == [] + if !field.omitZero then [field.name] else [];
    assert EncodedAll(h, |h|, shown, fs, {}, j) == Some(if field.omitZero then [] else [] + [j]);
    assert [] + [field.name] == [field.name] && [] + [j] == [j];
  }

  lemma OneFieldMay(h: Heap, ats: seq<nat>, field: Label, onPath: set<nat>, q: Query)
    requires Closed(h, |h|) && |ats| == |h| && field.seen && !field.omitEmpty
    ensures May(h, ats, OneField(field), onPath, q) <==>
            if field.settable then q.reached && (field.omitZero ==> q.uncovered) else field.omitZero || q.missed
  {
    var ls, fs: seq<Value> := [field], [NilSlice];
    var walk, before, shown := Settable(ls), Shown(h, ls, fs), ShownAfter(h, ls, fs);
    assert walk == [field.settable] && before == [!field.omitZero] && shown == [field.settable || !field.omitZero];
    assert walk[..0] == [] && before[..0] == [] && shown[..0] == [] && fs[..0] == [];
    assert MayAll(h, ats, walk[..0], before[..0], shown[..0], fs[..0], onPath, q);
    assert MayAll(h, ats, walk, before, shown, fs, onPath, q) <==>
           (shown[0] ==> (before[0] || q.uncovered) && if walk[0] then q.reached else q.missed);
  }

  /** A nil slice promoted through an embedded unexported struct, whose fields cannot be set, is still
      written as null. */
  lemma EmbeddedFieldIsMissed()
    ensures var v := OneField(PLAIN.(settable := false));
      && Payload([], [], v)
      && var (v', h') := EmptyNilSlices([], [], v);
      && Closed(h', |h'|) && Refers(h', |h'|, v')
      && Written([], v, EMPTY) == Some(JObject(["tags"], [EMPTY]))
      && Written(h', v', JNull) == Some(JObject(["tags"], [JNull]))
  {
    var field := PLAIN.(settable := false);
    OneFieldEncodes([], field, EMPTY);
    OneFieldEncodes([], field, JNull);
    OneFieldMay([], [], field, {}, Query(false, true, false));
    NothingToEmpty([], [], OneField(field));
  }

  /** A nil slice that omitzero leaves out of the input is written once it is emptied. */
  lemma OmittedFieldIsUncovered()
    ensures var v := OneField(PLAIN.(omitZero := true));
      && Payload([], [], v)
      && var (v', h') := EmptyNilSlices([], [], v);
      && Closed(h', |h'|) && Refers(h', |h'|, v')
      && Written([], v, JNull) == Written([], v, EMPTY) == Some(JObject([], []))
      && Written(h', v', JNull) != Written([], v, JNull)
  {
    var field := PLAIN.(omitZero := true);
    OneFieldEncodes([], field, EMPTY);
    OneFieldEncodes([], field, JNull);
    OneFieldMay([], [], field, {}, Query(true, false, false));
    CopyEncodesWithoutNulls([], [], OneField(field));
  }

  /** A struct whose second field points at its first: the two objects have one address. */
  const PAIR := [PLAIN.(name := "in"), PLAIN.(name := "p")]

  const INNER := OneField(PLAIN)

  const OUTER := Struct(PAIR, [INNER, Pointer(1)])

  const SELF_POINTING := [Cell([OUTER]), Cell([INNER])]

  lemma SelfPointingIsPayload()
    ensures Payload(SELF_POINTING, [7, 7], Pointer(0)) && Written(SELF_POINTING, Pointer(0), EMPTY).Some?
  {
    var h, n := SELF_POINTING, 2;
    assert Refers(h, n, INNER) && Refers(h, n, OUTER);
    assert RefersAll(h, n, h[0].contents) && RefersAll(h, n, h[1].contents);
    assert Closed(h, n);
    InnerEncodes(h, {} + {0}, EMPTY);
    InnerEncodes(h, {} + {0} + {1}, EMPTY);
    PointerEncodes(h, {} + {0}, 1, EMPTY);
    PairEncodes(h, {} + {0}, EMPTY);
    PointerEncodes(h, {}, 0, EMPTY);
  }

  lemma InnerEncodes(h: Heap, path: set<nat>, j: Json)
    requires Closed(h, |h|)
    ensures Encoded(h, |h|, INNER, path, j).Some?
  {
    ZeroEncodes(h, seq(|h|, i => 0), INNER, {}, path, j);
  }

  /** A pointer encodes when what it points at does. */
  lemma PointerEncodes(h: Heap, path: set<nat>, a: nat, j: Json)
    requires Closed(h, |h|) && a < |h| && h[a].Cell? && a !in path
    requires Encoded(h, |h|, h[a].contents[0], path + {a}, j).Some?
    ensures Encoded(h, |h|, Pointer(a), path, j).Some?
  {
    var vs := h[a].contents;
    FreeShrinks(|h|, path, a);
    assert vs[..0] == [] && Every(1)[..0] == [];
    assert EncodedAll(h, |h|, Every(1)[..0], vs[..0], path + {a}, j) == Some([]);
  }

  lemma PairEncodes(h: Heap, path: set<nat>, j: Json)
    requires Closed(h, |h|) && Refers(h, |h|, OUTER) && |h| > 1 && h[1].Cell?
    requires Encoded(h, |h|, INNER, path, j).Some? && Encoded(h, |h|, Pointer(1), path, j).Some?
    ensures Encoded(h, |h|, OUTER, path, j).Some?
  {
    var fs := [INNER, Pointer(1)];
    var shown := Shown(h, PAIR, fs);
    assert shown == [true, true];
    assert fs[..1] == [INNER] && fs[..1][..0] == [] && shown[..1] == [true] && shown[..1][..0] == [];
    assert EncodedAll(h, |h|, shown[..1][..0], fs[..1][..0], path, j) == Some([]);
    assert EncodedAll(h, |h|, shown[..1], fs[..1], path, j).Some?;
  }

  /** The pointer's nil slice is missed: its object's address is on the path already. */
  lemma SharedAddressIsMissed()
    ensures Payload(SELF_POINTING, [7, 7], Pointer(0))
    ensures var (v', h') := EmptyNilSlices(SELF_POINTING, [7, 7], Pointer(0));
      Closed(h', |h'|) && Refers(h', |h'|, v') && Written(h', v', JNull) != Written(SELF_POINTING, Pointer(0), EMPTY)
  {
    SelfPointingIsPayload();
    var h, ats := SELF_POINTING, [7, 7];
    assert !NoNil(h, |h|, Pointer(1), {}) by {
      InnerHoldsNil(h, {} + {1});
      assert h[1].contents[..0] == [] && Every(1)[..0] == [];
      FreeShrinks(|h|, {}, 1);
    }
    var fs := [INNER, Pointer(1)];
    var walk, shown := Settable(PAIR), Shown(h, PAIR, fs);
    assert walk == [true, true] && shown == [true, true] && ShownAfter(h, PAIR, fs) == [true, true];
    assert !May(h, ats, Pointer(1), {7}, Query(true, false, false));
    assert !May(h, ats, OUTER, {7}, Query(true, false, false));
    assert {} + {ats[0]} == {7} && h[0].contents == [OUTER];
    CopyEncodesWithoutNulls(h, ats, Pointer(0));
  }

  lemma InnerHoldsNil(h: Heap, path: set<nat>)
    requires Closed(h, |h|)
    ensures !NoNil(h, |h|, INNER, path)
  {
    var shown, fs: seq<Value> := Shown(h, [PLAIN], [NilSlice]), [NilSlice];
    assert shown == [true] && fs[0] == NilSlice;
    assert !NoNil(h, |h|, fs[0], path);
    assert !NoNilAll(h, |h|, shown, fs, path);
  }

  lemma EmptyInner(h: Heap, ats: seq<nat>, onPath: set<nat>)
    requires Closed(h, |ats|)
    ensures Refers(h, |ats|, INNER) && Emptied(h, ats, INNER, onPath) == (Struct([PLAIN], [Slice([])]), h)
  {
    var walk, fs: seq<Value> := Settable([PLAIN]), [NilSlice];
    assert walk == [true] && walk[..0] == [] && fs[..0] == [];
    assert EmptiedAll(h, ats, walk[..0], fs[..0], onPath) == ([], h);
    assert [] + [Slice([])] == [Slice([])];
    assert EmptiedAll(h, ats, walk, fs, onPath) == ([Slice([])], h);
  }

  const OUTER_COPY := Struct(PAIR, [Struct([PLAIN], [Slice([])]), Pointer(1)])

  lemma EmptyOuter(h: Heap, onPath: set<nat>)
    requires |h| >= 2 && h[1].Cell? && Closed(h, 2) && Refers(h, 2, OUTER) && 7 in onPath
    ensures Emptied(h, [7, 7], OUTER, onPath) == (OUTER_COPY, h)
  {
    var ats, fs, walk := [7, 7], [INNER, Pointer(1)], Settable(PAIR);
    assert walk == [true, true] && walk[..1] == [true] && walk[..1][..0] == [] && fs[..1] == [INNER] && fs[..1][..0] == [];
    assert EmptiedAll(h, ats, walk[..1][..0], fs[..1][..0], onPath) == ([], h);
    EmptyInner(h, ats, onPath);
    var inner := Struct([PLAIN], [Slice([])]);
    assert [] + [inner] == [inner];
    assert EmptiedAll(h, ats, walk[..1], fs[..1], onPath) == ([inner], h);
    assert Emptied(h, ats, Pointer(1), onPath) == (Pointer(1), h);
    assert [inner] + [Pointer(1)] == [inner, Pointer(1)];
  }

  lemma FirstPass()
    ensures Payload(SELF_POINTING, [7, 7], Pointer(0))
    ensures EmptyNilSlices(SELF_POINTING, [7, 7], Pointer(0)) == (Pointer(2), SELF_POINTING + [Cell([OUTER_COPY])])
  {
    SelfPointingIsPayload();
    var h, ats := SELF_POINTING, [7, 7];
    var vs := h[0].contents;
    assert vs == [OUTER] && vs[..0] == [] && Every(1)[..0] == [] && {} + {ats[0]} == {7};
    assert EmptiedAll(h, ats, Every(1)[..0], vs[..0], {7}) == ([], h);
    EmptyOuter(h, {7});
    assert [] + [OUTER_COPY] == [OUTER_COPY];
    assert EmptiedAll(h, ats, Every(1), vs, {7}) == ([OUTER_COPY], h);
  }

  lemma OneOnly(h: Heap, ats: seq<nat>, v: Value, onPath: set<nat>, q: Query)
    requires Closed(h, |h|) && |ats| == |h| && Refers(h, |h|, v)
    ensures MayAll(h, ats, Every(1), Every(1), Every(1), [v], onPath, q) <==> May(h, ats, v, onPath, q)
  {
    assert [v][..0] == [] && Every(1)[..0] == [];
    assert MayAll(h, ats, Every(1)[..0], Every(1)[..0], Every(1)[..0], [v][..0], onPath, q);
  }

  const FIRST_COPY := [Cell([OUTER]), Cell([INNER]), Cell([OUTER_COPY])]

  /** In the copy the pointer's object has an address that is not on the path. */
  lemma SecondPassReaches()
    requires Payload(FIRST_COPY, [7, 7, 8], Pointer(2))
    ensures !NoNilSliceReached(FIRST_COPY, [7, 7, 8], Pointer(2))
  {
    var h, ats, q := FIRST_COPY, [7, 7, 8], Query(false, true, false);
    assert h[1].contents == [INNER] && h[2].contents == [OUTER_COPY];
    OneFieldMay(h, ats, PLAIN, {8} + {7}, q);
    OneOnly(h, ats, INNER, {8} + {7}, q);
    assert !May(h, ats, Pointer(1), {8}, q);
    var fs := [Struct([PLAIN], [Slice([])]), Pointer(1)];
    assert Settable(PAIR) == [true, true] && ShownAfter(h, PAIR, fs) == [true, true];
    assert !May(h, ats, OUTER_COPY, {8}, q);
    OneOnly(h, ats, OUTER_COPY, {8}, q);
    assert {} + {8} == {8};
  }

  /** A second pass, over a copy with an address of its own, does reach it: there a second pass changes
      what is written. */
  lemma SharedAddressIsReachedSecond()
    ensures Payload(SELF_POINTING, [7, 7], Pointer(0))
    ensures var (v1, h1) := EmptyNilSlices(SELF_POINTING, [7, 7], Pointer(0));
      && Payload(h1, [7, 7, 8], v1)
      && var (v2, h2) := EmptyNilSlices(h1, [7, 7, 8], v1);
      && Closed(h2, |h2|) && Refers(h2, |h2|, v2)
      && Written(h2, v2, JNull) != Written(h1, v1, JNull)
  {
    FirstPass();
    SelfPointingIsPayload();
    EncodesEitherWay(SELF_POINTING, 2, Pointer(0), {}, JNull, EMPTY);
    SecondPassIsIdle(SELF_POINTING, [7, 7], Pointer(0), [7, 7, 8]);
    assert SELF_POINTING + [Cell([OUTER_COPY])] == FIRST_COPY;
    SecondPassReaches();
  }

  // ---- the walk as it runs ------------------------------------------------------------------------------

  /** The recursive copy over one shared set of addresses on the current path. */
  class Emptier {
    const ats: seq<nat>
    var heap: Heap
    var onPath: set<nat>

    constructor (h: Heap, addresses: seq<nat>)
      ensures heap == h && ats == addresses && onPath == {}
    {
      heap, ats, onPath := h, addresses, {};
    }

    /** The copy of v; the path is as it was, and the heap has only grown by the copies. */
    method Empty(v: Value) returns (copy: Value)
      requires Closed(heap, |ats|) && Refers(heap, |ats|, v)
      modifies this
      ensures (copy, heap) == Emptied(old(heap), ats, v, old(onPath))
      ensures onPath == old(onPath)
      decreases Off(ats, onPath), v, 1
    {
      match v
      case NilSlice => return Slice([]);
      case Slice(es) =>
        var copies := EmptyAll(Every(|es|), es);
        return Slice(copies);
      case Array(es) =>
        var copies := EmptyAll(Every(|es|), es);
        return Array(copies);
      case Struct(ls, fs) =>
        var copies := EmptyAll(Settable(ls), fs);
        return Struct(ls, copies);
      case Interface(d) =>
        var inner := Empty(d);
        return Interface(inner);
      case Pointer(a) =>
        if ats[a] in onPath {
          return v;
        }
        var copies := EmptyObject(a, v);
        heap := heap + [Cell(copies)];
        return Pointer(|heap| - 1);
      case MapRef(a) =>
        if ats[a] in onPath {
          return v;
        }
        var keys := heap[a].keys;
        var copies := EmptyObject(a, v);
        heap := heap + [Dict(keys, copies)];
        return MapRef(|heap| - 1);
      case _ => return v;
    }

    /** The contents of object a, copied with its address on the path, which is taken off again. */
    method EmptyObject(a: nat, ghost v: Value) returns (copies: seq<Value>)
      requires Closed(heap, |ats|) && a < |ats| && ats[a] !in onPath
      modifies this
      ensures var contents := old(heap)[a].contents;
        (copies, heap) == EmptiedAll(old(heap), ats, Every(|contents|), contents, old(onPath) + {ats[a]})
      ensures onPath == old(onPath)
      decreases Off(ats, onPath), v, 0
    {
      OffShrinks(ats, onPath, a);
      var contents := heap[a].contents;
      onPath := onPath + {ats[a]};
      copies := EmptyAll(Every(|contents|), contents);
      onPath := onPath - {ats[a]};
    }

    method EmptyAll(mask: seq<bool>, vs: seq<Value>) returns (copies: seq<Value>)
      requires Closed(heap, |ats|) && RefersAll(heap, |ats|, vs) && |mask| == |vs|
      modifies this
      ensures (copies, heap) == EmptiedAll(old(heap), ats, mask, vs, old(onPath))
      ensures onPath == old(onPath)
      decreases Off(ats, onPath), vs, 0
    {
      copies := [];
      for i := 0 to |vs|
        invariant (copies, heap) == EmptiedAll(old(heap), ats, mask[..i], vs[..i], old(onPath))
        invariant onPath == old(onPath)
      {
        assert mask[..i + 1][..i] == mask[..i] && vs[..i + 1][..i] == vs[..i];
        var copy := vs[i];
        if mask[i] {
          KeepsRefs(old(heap), heap, |ats|, vs[i]);
          KeepsClosed(old(heap), heap, |ats|);
          copy := Empty(vs[i]);
        }
        copies := copies + [copy];
      }
      assert mask[..|vs|] == mask && vs[..|vs|] == vs;
    }
  }
}

/** The walk's loops as they run, and what they put where (pkg/clifmt/derive.go): each is proved to
    compute the derivation of module Derive, and that derivation to show every member once, in its
    place, and every table cell in its column. */
module Walk {
  import opened Base
  import opened Docs
  import opened Derive
  import opened Maps
  import Markdown

  // ---- members ----------------------------------------------------------------------------------------

  lemma OneMoreMember(d: Deriver, parent: Value, items: seq<Item>, path: string, kind: FieldKind, doc: R)
    requires items != [] && forall j | 0 <= j < |items| :: items[j].val < parent
    requires var last := items[|items| - 1];
      && kind == Classify(d.decls, Deref(last.val))
      && doc == Member(d, last.val, JoinPath(path, last.name), last.caption)
    ensures var front := MembersOf(d, parent, items[..|items| - 1], path);
      MembersOf(d, parent, items, path) ==
        if front.Err? then front else if doc.Err? then Err(doc.error) else Ok(front.value.Add(kind, doc.value))
  {
  }

  /** Each item's kind, and what it derives as. */
  ghost predicate Shown(d: Deriver, items: seq<Item>, path: string, kinds: seq<FieldKind>, docs: seq<R>) {
    && |kinds| == |docs| == |items|
    && (forall j | 0 <= j < |items| :: kinds[j] == Classify(d.decls, Deref(items[j].val)))
    && (forall j {:trigger Member(d, items[j].val, JoinPath(path, items[j].name), items[j].caption)} | 0 <= j < |items| ::
          docs[j] == Member(d, items[j].val, JoinPath(path, items[j].name), items[j].caption))
  }

  /** Documents of known kinds, put in their buckets; or the first failure. */
  function Gather(kinds: seq<FieldKind>, docs: seq<R>): Result<Buckets, Error>
    requires |kinds| == |docs|
  {
    if docs == [] then Ok(Buckets([], [], []))
    else
      var k := |docs| - 1;
      var front := Gather(kinds[..k], docs[..k]);
      if front.Err? then front
      else if docs[k].Err? then Err(docs[k].error)
      else Ok(front.value.Add(kinds[k], docs[k].value))
  }

  lemma {:induction false} MembersGather(
    d: Deriver, parent: Value, items: seq<Item>, path: string, kinds: seq<FieldKind>, docs: seq<R>)
    requires forall j | 0 <= j < |items| :: items[j].val < parent
    requires Shown(d, items, path, kinds, docs)
    ensures MembersOf(d, parent, items, path) == Gather(kinds, docs)
    decreases |items|
  {
    if items != [] {
      var k := |items| - 1;
      MembersGather(d, parent, items[..k], path, kinds[..k], docs[..k]);
      OneMoreMember(d, parent, items, path, kinds[k], docs[k]);
    }
  }

  /** The documents of one kind, in order. */
  function OfKind(kinds: seq<FieldKind>, docs: seq<Doc>, kind: FieldKind): Doc
    requires |kinds| == |docs|
  {
    Flatten(Map(Second, Filter(FirstIs(kind), Zip(kinds, docs))))
  }

  function Zip(kinds: seq<FieldKind>, docs: seq<Doc>): (pairs: seq<(FieldKind, Doc)>)
    requires |kinds| == |docs|
  {
    seq(|docs|, i requires 0 <= i < |docs| => (kinds[i], docs[i]))
  }

  function Second(pair: (FieldKind, Doc)): Doc { pair.1 }

  function FirstIs(kind: FieldKind): ((FieldKind, Doc)) -> bool {
    (pair: (FieldKind, Doc)) => pair.0 == kind
  }

  lemma {:induction false} FlattenAppend<T>(parts: seq<seq<T>>, last: seq<T>)
    ensures Flatten(parts + [last]) == Flatten(parts) + last
  {
    if parts == [] {
      assert [] + [last] == [last] && [last][1..] == [];
      assert Flatten([last]) == last + Flatten([last][1..]);
    } else {
      assert (parts + [last])[1..] == parts[1..] + [last];
      FlattenAppend(parts[1..], last);
      assert parts[0] + (Flatten(parts[1..]) + last) == (parts[0] + Flatten(parts[1..])) + last;
    }
  }

  lemma OfKindAppend(kinds: seq<FieldKind>, docs: seq<Doc>, kind: FieldKind)
    requires |kinds| == |docs| && docs != []
    ensures var k := |docs| - 1;
      var front := OfKind(kinds[..k], docs[..k], kind);
      OfKind(kinds, docs, kind) == if kinds[k] == kind then front + docs[k] else front
  {
    var k := |docs| - 1;
    var front, last := Zip(kinds[..k], docs[..k]), (kinds[k], docs[k]);
    var kept := Filter(FirstIs(kind), front);
    assert Zip(kinds, docs) == front + [last];
    FilterAppend(FirstIs(kind), front, last);
    if kinds[k] == kind {
      assert Map(Second, kept + [last]) == Map(Second, kept) + [docs[k]];
      FlattenAppend(Map(Second, kept), docs[k]);
    } else {
      assert kept + [] == kept;
    }
  }

  lemma {:induction false} GatheredInOrder(kinds: seq<FieldKind>, docs: seq<Doc>, results: seq<R>)
    requires |kinds| == |docs| == |results| && forall j | 0 <= j < |docs| :: results[j] == Ok(docs[j])
    ensures Gather(kinds, results)
         == Ok(Buckets(OfKind(kinds, docs, ScalarField), OfKind(kinds, docs, SectionField), OfKind(kinds, docs, TableField)))
  {
    if docs == [] {
      assert Zip(kinds, docs) == [];
    } else {
      var k := |docs| - 1;
      GatheredInOrder(kinds[..k], docs[..k], results[..k]);
      OfKindAppend(kinds, docs, ScalarField);
      OfKindAppend(kinds, docs, SectionField);
      OfKindAppend(kinds, docs, TableField);
    }
  }

  /** Every member is shown once: the scalar ones first, then sections, then tables, each kind in
      member order. */
  lemma MembersInOrder(
    d: Deriver, parent: Value, items: seq<Item>, path: string, kinds: seq<FieldKind>, results: seq<R>, docs: seq<Doc>)
    requires forall j | 0 <= j < |items| :: items[j].val < parent
    requires Shown(d, items, path, kinds, results)
    requires |docs| == |items| && forall j | 0 <= j < |items| :: results[j] == Ok(docs[j])
    ensures MembersOf(d, parent, items, path)
         == Ok(Buckets(OfKind(kinds, docs, ScalarField), OfKind(kinds, docs, SectionField), OfKind(kinds, docs, TableField)))
  {
    MembersGather(d, parent, items, path, kinds, results);
    GatheredInOrder(kinds, docs, results);
  }

  lemma {:induction false} GatherFails(kinds: seq<FieldKind>, docs: seq<R>, j: nat)
    requires |kinds| == |docs| && j < |docs| && docs[j].Err?
    requires forall k | 0 <= k < j :: docs[k].Ok?
    ensures Gather(kinds, docs) == Err(docs[j].error)
  {
    var k := |docs| - 1;
    if j < k {
      GatherFails(kinds[..k], docs[..k], j);
    } else {
      GatherPrefix(kinds[..k], docs[..k]);
    }
  }

  lemma {:induction false} GatherPrefix(kinds: seq<FieldKind>, docs: seq<R>)
    requires |kinds| == |docs| && forall k | 0 <= k < |docs| :: docs[k].Ok?
    ensures Gather(kinds, docs).Ok?
  {
    if docs != [] {
      GatherPrefix(kinds[..|docs| - 1], docs[..|docs| - 1]);
    }
  }

  /** What the members show, whichever they are. */
  lemma ShowAll(d: Deriver, items: seq<Item>, path: string) returns (kinds: seq<FieldKind>, docs: seq<R>)
    ensures Shown(d, items, path, kinds, docs)
  {
    kinds := seq(|items|, j requires 0 <= j < |items| => Classify(d.decls, Deref(items[j].val)));
    docs := seq(|items|, j requires 0 <= j < |items| =>
      Member(d, items[j].val, JoinPath(path, items[j].name), items[j].caption));
  }

  lemma GatherNext(kinds: seq<FieldKind>, docs: seq<R>, i: nat, b: Buckets)
    requires |kinds| == |docs| && i < |docs| && Gather(kinds[..i], docs[..i]) == Ok(b)
    ensures docs[i].Ok? ==> Gather(kinds[..i + 1], docs[..i + 1]) == Ok(b.Add(kinds[i], docs[i].value))
  {
    assert kinds[..i + 1][..i] == kinds[..i] && docs[..i + 1][..i] == docs[..i];
  }

  method ShowOne(d: Deriver, items: seq<Item>, path: string, ghost kinds: seq<FieldKind>, ghost docs: seq<R>, i: nat)
    returns (kind: FieldKind, doc: R)
    requires Shown(d, items, path, kinds, docs) && i < |items|
    ensures kind == kinds[i] && doc == docs[i]
  {
    kind := Classify(d.decls, Deref(items[i].val));
    doc := Member(d, items[i].val, JoinPath(path, items[i].name), items[i].caption);
  }

  /** Three buckets filled member by member; the first failure ends it. */
  method FillBuckets(d: Deriver, items: seq<Item>, path: string, ghost kinds: seq<FieldKind>, ghost docs: seq<R>)
    returns (b: Result<Buckets, Error>)
    requires Shown(d, items, path, kinds, docs)
    ensures b == Gather(kinds, docs)
  {
    var scalars: Doc, sections: Doc, tables: Doc := [], [], [];
    for i := 0 to |items|
      invariant forall j | 0 <= j < i :: docs[j].Ok?
      invariant Gather(kinds[..i], docs[..i]) == Ok(Buckets(scalars, sections, tables))
    {
      GatherNext(kinds, docs, i, Buckets(scalars, sections, tables));
      var kind, doc := ShowOne(d, items, path, kinds, docs, i);
      if doc.Err? {
        GatherFails(kinds, docs, i);
        return Err(doc.error);
      }
      match kind
      case ScalarField => scalars := scalars + doc.value;
      case SectionField => sections := sections + doc.value;
      case TableField => tables := tables + doc.value;
    }
    assert kinds[..|items|] == kinds && docs[..|items|] == docs;
    return Ok(Buckets(scalars, sections, tables));
  }

  /** The members of a struct or map: all three buckets, in order. */
  method WalkMembers(d: Deriver, dv: Value, items: seq<Item>, path: string) returns (r: R)
    requires forall j | 0 <= j < |items| :: items[j].val < dv
    ensures var b := MembersOf(d, dv, items, path);
      r == if b.Err? then Err(b.error) else Ok(b.value.All())
  {
    ghost var kinds, docs := ShowAll(d, items, path);
    MembersGather(d, dv, items, path, kinds, docs);
    var b := FillBuckets(d, items, path, kinds, docs);
    if b.Err? {
      return Err(b.error);
    }
    return Ok(b.value.scalars + b.value.sections + b.value.tables);
  }

  /** When some member fails, the whole fails for the reason of the first that does. */
  lemma FirstFailureWins(
    d: Deriver, parent: Value, items: seq<Item>, path: string, kinds: seq<FieldKind>, results: seq<R>, j: nat)
    requires forall k | 0 <= k < |items| :: items[k].val < parent
    requires Shown(d, items, path, kinds, results)
    requires j < |items| && results[j].Err? && forall k | 0 <= k < j :: results[k].Ok?
    ensures MembersOf(d, parent, items, path) == Err(results[j].error)
  {
    MembersGather(d, parent, items, path, kinds, results);
    GatherFails(kinds, results, j);
  }

  // ---- results in a row ---------------------------------------------------------------------------------

  /** What all of results hold; or the first failure. */
  function Collected<T>(results: seq<Result<T, Error>>): Result<seq<T>, Error> {
    if results == [] then Ok([])
    else
      var front, last := Collected(results[..|results| - 1]), results[|results| - 1];
      if front.Err? then Err(front.error) else if last.Err? then Err(last.error) else Ok(front.value + [last.value])
  }

  /** There is a value for each exactly when none failed, and value i is what result i holds. */
  lemma {:induction false} CollectedEach<T>(results: seq<Result<T, Error>>, vals: seq<T>)
    ensures Collected(results) == Ok(vals) <==>
            |vals| == |results| && forall i | 0 <= i < |vals| :: results[i] == Ok(vals[i])
  {
    if results != [] && vals != [] {
      var k := |results| - 1;
      CollectedEach(results[..k], vals[..|vals| - 1]);
      assert vals == vals[..|vals| - 1] + [vals[|vals| - 1]];
    }
  }

  // ---- lists of scalars ---------------------------------------------------------------------------------

  lemma {:induction false} TextsStop(d: Deriver, vs: seq<Value>, path: string, i: nat)
    requires i <= |vs| && Texts(d, vs[..i], path).Err?
    ensures Texts(d, vs, path) == Texts(d, vs[..i], path)
    decreases |vs|
  {
    if i < |vs| {
      assert vs[..|vs| - 1][..i] == vs[..i];
      TextsStop(d, vs[..|vs| - 1], path, i);
    } else {
      assert vs[..i] == vs;
    }
  }

  method WalkTexts(d: Deriver, vs: seq<Value>, path: string) returns (r: Result<seq<string>, Error>)
    ensures r == Texts(d, vs, path)
  {
    var items: seq<string> := [];
    for i := 0 to |vs|
      invariant Texts(d, vs[..i], path) == Ok(items)
    {
      assert vs[..i + 1][..i] == vs[..i];
      var s := Text(d, vs[i], path, "");
      if s.Err? {
        TextsStop(d, vs, path, i + 1);
        return Err(s.error);
      }
      items := items + [s.value];
    }
    assert vs[..|vs|] == vs;
    return Ok(items);
  }

  lemma {:induction false} TextsCollect(d: Deriver, vs: seq<Value>, path: string, results: seq<Result<string, Error>>)
    requires |results| == |vs|
    requires forall j | 0 <= j < |vs| :: results[j] == Text(d, vs[j], path, "")
    ensures Texts(d, vs, path) == Collected(results)
    decreases |vs|
  {
    if vs != [] {
      var k := |vs| - 1;
      assert results[k] == Text(d, vs[k], path, "");
      TextsCollect(d, vs[..k], path, results[..k]);
    }
  }

  /** Item i is element i's text; and there are items exactly when every element has a text. */
  lemma TextsHold(d: Deriver, vs: seq<Value>, path: string, items: seq<string>)
    ensures Texts(d, vs, path) == Ok(items) <==>
            |items| == |vs| && forall i | 0 <= i < |vs| :: Text(d, vs[i], path, "") == Ok(items[i])
  {
    var results := seq(|vs|, j requires 0 <= j < |vs| => Text(d, vs[j], path, ""));
    TextsCollect(d, vs, path, results);
    CollectedEach(results, items);
    assert forall i | 0 <= i < |vs| :: results[i] == Text(d, vs[i], path, "");
  }

  // ---- tables of structs --------------------------------------------------------------------------------

  lemma {:induction false} CellsStop(d: Deriver, fields: seq<FieldDecl>, vals: seq<Value>, elemPath: string, i: nat)
    requires i <= |fields| == |vals| && Cells(d, fields[..i], vals[..i], elemPath).Err?
    ensures Cells(d, fields, vals, elemPath) == Cells(d, fields[..i], vals[..i], elemPath)
    decreases |fields|
  {
    var k := |fields| - 1;
    if i < |fields| {
      assert fields[..k][..i] == fields[..i] && vals[..k][..i] == vals[..i];
      CellsStop(d, fields[..k], vals[..k], elemPath, i);
    } else {
      assert fields[..i] == fields && vals[..i] == vals;
    }
  }

  lemma CellsGrow(d: Deriver, fields: seq<FieldDecl>, vals: seq<Value>, elemPath: string, i: nat)
    requires i < |fields| == |vals|
    ensures var front := Cells(d, fields[..i], vals[..i], elemPath);
      var last := Text(d, vals[i], JoinPath(elemPath, fields[i].name), fields[i].caption);
      Cells(d, fields[..i + 1], vals[..i + 1], elemPath)
      == if front.Err? || !Visible(fields[i]) then front else if last.Err? then Err(last.error)
         else Ok(front.value + [last.value])
  {
    assert fields[..i + 1][..i] == fields[..i] && vals[..i + 1][..i] == vals[..i];
  }

  method WalkRow(d: Deriver, fields: seq<FieldDecl>, elem: Value, elemPath: string) returns (r: Result<seq<string>, Error>)
    ensures r == StructRow(d, fields, elem, elemPath)
  {
    if !elem.Struct? || |elem.fields| != |fields| {
      return Ok(seq(|Columns(fields)|, i => ""));
    }
    var row: seq<string> := [];
    for i := 0 to |fields|
      invariant Cells(d, fields[..i], elem.fields[..i], elemPath) == Ok(row)
    {
      CellsGrow(d, fields, elem.fields, elemPath, i);
      if Visible(fields[i]) {
        var s := Text(d, elem.fields[i], JoinPath(elemPath, fields[i].name), fields[i].caption);
        if s.Err? {
          CellsStop(d, fields, elem.fields, elemPath, i + 1);
          return Err(s.error);
        }
        row := row + [s.value];
      }
    }
    assert fields[..|fields|] == fields && elem.fields[..|fields|] == elem.fields;
    return Ok(row);
  }

  lemma {:induction false} StructRowsStop(d: Deriver, fields: seq<FieldDecl>, elems: seq<Value>, elemPath: string, i: nat)
    requires i <= |elems| && StructRows(d, fields, elems[..i], elemPath).Err?
    ensures StructRows(d, fields, elems, elemPath) == StructRows(d, fields, elems[..i], elemPath)
    decreases |elems|
  {
    if i < |elems| {
      assert elems[..|elems| - 1][..i] == elems[..i];
      StructRowsStop(d, fields, elems[..|elems| - 1], elemPath, i);
    } else {
      assert elems[..i] == elems;
    }
  }

  method WalkColumns(fields: seq<FieldDecl>) returns (columns: seq<string>)
    ensures columns == Columns(fields)
  {
    columns := [];
    for i := 0 to |fields|
      invariant columns == Columns(fields[..i])
    {
      assert fields[..i + 1][..i] == fields[..i];
      if Visible(fields[i]) {
        columns := columns + [fields[i].col];
      }
    }
    assert fields[..|fields|] == fields;
  }

  method WalkStructTable(d: Deriver, dv: Value, elemPath: string, title: string) returns (r: R)
    requires IsTableSlice(d.decls, dv)
    ensures r == StructTable(d, dv, elemPath, title)
  {
    var typ := DerefType(ElemType(d.decls, dv.typ)).name;
    if BadlyTagged(d.decls, typ) {
      return Err(Error(None, BadTag));
    }
    var fields := FieldsOf(d.decls, typ);
    var columns := WalkColumns(fields);
    var rows: seq<seq<string>> := [];
    for i := 0 to |dv.elems|
      invariant StructRows(d, fields, dv.elems[..i], elemPath) == Ok(rows)
    {
      assert dv.elems[..i + 1][..i] == dv.elems[..i];
      var row := WalkRow(d, fields, Deref(dv.elems[i]), elemPath);
      if row.Err? {
        StructRowsStop(d, fields, dv.elems, elemPath, i + 1);
        return Err(row.error);
      }
      rows := rows + [row.value];
    }
    assert dv.elems[..|dv.elems|] == dv.elems;
    return Ok([Table(title, columns, rows)]);
  }

  /** How many columns stand before field i's. */
  function ColumnOf(fields: seq<FieldDecl>, i: nat): nat
    requires i <= |fields|
  {
    |Filter(Visible, fields[..i])|
  }

  lemma {:induction false} ColumnsCounted(fields: seq<FieldDecl>)
    ensures |Columns(fields)| == |Filter(Visible, fields)|
  {
    if fields != [] {
      var k := |fields| - 1;
      ColumnsCounted(fields[..k]);
      FilterAppend(Visible, fields[..k], fields[k]);
      assert fields == fields[..k] + [fields[k]];
    }
  }

  lemma CellsFront(d: Deriver, fields: seq<FieldDecl>, vals: seq<Value>, elemPath: string, row: seq<string>)
    requires |fields| == |vals| > 0 && Cells(d, fields, vals, elemPath) == Ok(row)
    ensures var k := |fields| - 1;
      if Visible(fields[k]) then
        && row != []
        && Cells(d, fields[..k], vals[..k], elemPath) == Ok(row[..|row| - 1])
        && Text(d, vals[k], JoinPath(elemPath, fields[k].name), fields[k].caption) == Ok(row[|row| - 1])
      else Cells(d, fields[..k], vals[..k], elemPath) == Ok(row)
  {
  }

  /** Each visible field has a column, headed by it, and a row's cell there is that field's text. */
  lemma {:induction false} CellInItsColumn(
    d: Deriver, fields: seq<FieldDecl>, vals: seq<Value>, elemPath: string, row: seq<string>, i: nat)
    requires |fields| == |vals| && Cells(d, fields, vals, elemPath) == Ok(row)
    requires i < |fields| && Visible(fields[i])
    ensures ColumnOf(fields, i) < |Columns(fields)| && Columns(fields)[ColumnOf(fields, i)] == fields[i].col
    ensures Text(d, vals[i], JoinPath(elemPath, fields[i].name), fields[i].caption) == Ok(row[ColumnOf(fields, i)])
    decreases |fields|
  {
    var k := |fields| - 1;
    if i == k {
      CellsFront(d, fields, vals, elemPath, row);
      ColumnsCounted(fields[..k]);
    } else {
      var before := if Visible(fields[k]) then row[..|row| - 1] else row;
      CellsFront(d, fields, vals, elemPath, row);
      CellInItsColumn(d, fields[..k], vals[..k], elemPath, before, i);
      assert fields[..k][..i] == fields[..i];
    }
  }

  lemma {:induction false} StructRowsCollect(
    d: Deriver, fields: seq<FieldDecl>, elems: seq<Value>, elemPath: string, results: seq<Result<seq<string>, Error>>)
    requires |results| == |elems|
    requires forall j | 0 <= j < |elems| ::
      results[j] == StructRow(d, fields, Deref(elems[j]), elemPath)
    ensures StructRows(d, fields, elems, elemPath) == Collected(results)
    decreases |elems|
  {
    if elems != [] {
      var k := |elems| - 1;
      assert results[k] == StructRow(d, fields, Deref(elems[k]), elemPath);
      StructRowsCollect(d, fields, elems[..k], elemPath, results[..k]);
    }
  }

  lemma StructRowAt(d: Deriver, fields: seq<FieldDecl>, elems: seq<Value>, elemPath: string, rows: seq<seq<string>>, e: nat)
    requires StructRows(d, fields, elems, elemPath) == Ok(rows) && e < |elems|
    ensures StructRow(d, fields, Deref(elems[e]), elemPath) == Ok(rows[e])
  {
    var results := seq(|elems|, j requires 0 <= j < |elems| => StructRow(d, fields, Deref(elems[j]), elemPath));
    StructRowsCollect(d, fields, elems, elemPath, results);
    CollectedEach(results, rows);
    assert results[e] == Ok(rows[e]);
  }

  /** Row e of a struct table is element e: its cell below a field's heading is that field's text;
      all cells of a nil element are empty. */
  lemma StructTableHolds(d: Deriver, dv: Value, elemPath: string, title: string, e: nat, i: nat)
    requires IsTableSlice(d.decls, dv) && StructTable(d, dv, elemPath, title).Ok? && e < |dv.elems|
    ensures var fields := FieldsOf(d.decls, DerefType(ElemType(d.decls, dv.typ)).name);
      var t, elem := StructTable(d, dv, elemPath, title).value[0], Deref(dv.elems[e]);
      && t.title == title
      && (elem.Nil? ==> forall c | 0 <= c < |t.columns| :: t.rows[e][c] == "")
      && (elem.Struct? && |elem.fields| == |fields| && i < |fields| && Visible(fields[i]) ==>
            && ColumnOf(fields, i) < |t.columns| && t.columns[ColumnOf(fields, i)] == fields[i].col
            && Text(d, elem.fields[i], JoinPath(elemPath, fields[i].name), fields[i].caption)
            == Ok(t.rows[e][ColumnOf(fields, i)]))
  {
    var fields := FieldsOf(d.decls, DerefType(ElemType(d.decls, dv.typ)).name);
    var elem := Deref(dv.elems[e]);
    StructRowAt(d, fields, dv.elems, elemPath, StructTable(d, dv, elemPath, title).value[0].rows, e);
    if elem.Struct? && |elem.fields| == |fields| && i < |fields| && Visible(fields[i]) {
      CellInItsColumn(d, fields, elem.fields, elemPath, StructTable(d, dv, elemPath, title).value[0].rows[e], i);
    }
  }

  // ---- tables of maps -----------------------------------------------------------------------------------

  lemma {:induction false} MapRowStops(d: Deriver, cols: seq<string>, es: seq<Entry>, elemPath: string, i: nat)
    requires i <= |cols| && MapRow(d, cols[..i], es, elemPath).Err?
    ensures MapRow(d, cols, es, elemPath) == MapRow(d, cols[..i], es, elemPath)
    decreases |cols|
  {
    if i < |cols| {
      assert cols[..|cols| - 1][..i] == cols[..i];
      MapRowStops(d, cols[..|cols| - 1], es, elemPath, i);
    } else {
      assert cols[..i] == cols;
    }
  }

  lemma MapRowGrows(d: Deriver, cols: seq<string>, es: seq<Entry>, elemPath: string, c: nat)
    requires c < |cols|
    ensures var front := MapRow(d, cols[..c], es, elemPath);
      var last := Text(d, Lookup(es, cols[c]), JoinPath(elemPath, cols[c]), cols[c]);
      MapRow(d, cols[..c + 1], es, elemPath)
      == if front.Err? then front else if last.Err? then Err(last.error) else Ok(front.value + [last.value])
  {
    assert cols[..c + 1][..c] == cols[..c];
  }

  /** The element's entries as a map. */
  method EntriesMap(es: seq<Entry>) returns (vals: map<string, Value>)
    ensures forall k :: (if k in vals then vals[k] else Nil) == Lookup(es, k)
  {
    vals := map[];
    for i := 0 to |es|
      invariant forall k :: (if k in vals then vals[k] else Nil) == Lookup(es[..i], k)
    {
      assert es[..i + 1][..i] == es[..i];
      vals := vals[es[i].key := es[i].val];
    }
    assert es[..|es|] == es;
  }

  /** One cell per column, looked up in that map. */
  method WalkMapRow(d: Deriver, cols: seq<string>, es: seq<Entry>, elemPath: string) returns (r: Result<seq<string>, Error>)
    ensures r == MapRow(d, cols, es, elemPath)
  {
    var vals := EntriesMap(es);
    var row: seq<string> := [];
    for c := 0 to |cols|
      invariant MapRow(d, cols[..c], es, elemPath) == Ok(row)
    {
      MapRowGrows(d, cols, es, elemPath, c);
      var v := if cols[c] in vals then vals[cols[c]] else Nil;
      var s := Text(d, v, JoinPath(elemPath, cols[c]), cols[c]);
      if s.Err? {
        MapRowStops(d, cols, es, elemPath, c + 1);
        return Err(s.error);
      }
      row := row + [s.value];
    }
    assert cols[..|cols|] == cols;
    return Ok(row);
  }

  lemma {:induction false} MapRowsStop(d: Deriver, cols: seq<string>, elems: seq<Value>, elemPath: string, i: nat)
    requires i <= |elems| && MapRows(d, cols, elems[..i], elemPath).Err?
    ensures MapRows(d, cols, elems, elemPath) == MapRows(d, cols, elems[..i], elemPath)
    decreases |elems|
  {
    if i < |elems| {
      assert elems[..|elems| - 1][..i] == elems[..i];
      MapRowsStop(d, cols, elems[..|elems| - 1], elemPath, i);
    } else {
      assert elems[..i] == elems;
    }
  }

  lemma MapRowsGrow(d: Deriver, cols: seq<string>, elems: seq<Value>, elemPath: string, i: nat)
    requires i < |elems|
    ensures var front := MapRows(d, cols, elems[..i], elemPath);
      var last := MapRow(d, cols, EntriesOf(Deref(elems[i])), elemPath);
      MapRows(d, cols, elems[..i + 1], elemPath)
      == if front.Err? then front else if last.Err? then Err(last.error) else Ok(front.value + [last.value])
  {
    assert elems[..i + 1][..i] == elems[..i];
  }

  method WalkMapTable(d: Deriver, dv: Value, elemPath: string, title: string) returns (r: R)
    requires IsMapList(dv)
    ensures r == MapTable(d, dv, elemPath, title)
  {
    var cols := Keys(EntriesOf(Deref(dv.elems[0])));
    var rows: seq<seq<string>> := [];
    for i := 0 to |dv.elems|
      invariant MapRows(d, cols, dv.elems[..i], elemPath) == Ok(rows)
    {
      MapRowsGrow(d, cols, dv.elems, elemPath, i);
      var row := WalkMapRow(d, cols, EntriesOf(Deref(dv.elems[i])), elemPath);
      if row.Err? {
        MapRowsStop(d, cols, dv.elems, elemPath, i + 1);
        return Err(row.error);
      }
      rows := rows + [row.value];
    }
    assert dv.elems[..|dv.elems|] == dv.elems;
    return Ok([Table(title, cols, rows)]);
  }

  lemma {:induction false} MapRowCollects(
    d: Deriver, cols: seq<string>, es: seq<Entry>, elemPath: string, results: seq<Result<string, Error>>)
    requires |results| == |cols|
    requires forall j | 0 <= j < |cols| ::
      results[j] == Text(d, Lookup(es, cols[j]), JoinPath(elemPath, cols[j]), cols[j])
    ensures MapRow(d, cols, es, elemPath) == Collected(results)
    decreases |cols|
  {
    if cols != [] {
      var k := |cols| - 1;
      assert results[k] == Text(d, Lookup(es, cols[k]), JoinPath(elemPath, cols[k]), cols[k]);
      MapRowCollects(d, cols[..k], es, elemPath, results[..k]);
    }
  }

  lemma MapCellAt(d: Deriver, cols: seq<string>, es: seq<Entry>, elemPath: string, row: seq<string>, c: nat)
    requires MapRow(d, cols, es, elemPath) == Ok(row) && c < |cols|
    ensures Text(d, Lookup(es, cols[c]), JoinPath(elemPath, cols[c]), cols[c]) == Ok(row[c])
  {
    var results := seq(|cols|, j requires 0 <= j < |cols| =>
      Text(d, Lookup(es, cols[j]), JoinPath(elemPath, cols[j]), cols[j]));
    MapRowCollects(d, cols, es, elemPath, results);
    CollectedEach(results, row);
    assert results[c] == Ok(row[c]);
  }

  lemma {:induction false} MapRowsCollect(
    d: Deriver, cols: seq<string>, elems: seq<Value>, elemPath: string, results: seq<Result<seq<string>, Error>>)
    requires |results| == |elems|
    requires forall j | 0 <= j < |elems| ::
      results[j] == MapRow(d, cols, EntriesOf(Deref(elems[j])), elemPath)
    ensures MapRows(d, cols, elems, elemPath) == Collected(results)
    decreases |elems|
  {
    if elems != [] {
      var k := |elems| - 1;
      assert results[k] == MapRow(d, cols, EntriesOf(Deref(elems[k])), elemPath);
      MapRowsCollect(d, cols, elems[..k], elemPath, results[..k]);
    }
  }

  lemma MapRowAt(d: Deriver, cols: seq<string>, elems: seq<Value>, elemPath: string, rows: seq<seq<string>>, e: nat)
    requires MapRows(d, cols, elems, elemPath) == Ok(rows) && e < |elems|
    ensures MapRow(d, cols, EntriesOf(Deref(elems[e])), elemPath) == Ok(rows[e])
  {
    var results := seq(|elems|, j requires 0 <= j < |elems| => MapRow(d, cols, EntriesOf(Deref(elems[j])), elemPath));
    MapRowsCollect(d, cols, elems, elemPath, results);
    CollectedEach(results, rows);
    assert results[e] == Ok(rows[e]);
  }

  lemma {:induction false} LookupFinds(es: seq<Entry>, i: nat)
    requires i < |es| && DistinctKeys(es)
    ensures Lookup(es, es[i].key) == es[i].val
    decreases |es|
  {
    var k := |es| - 1;
    if i < k {
      assert es[i].key != es[k].key;
      LookupFinds(es[..k], i);
    }
  }

  /** Row e of a uniform map table is element e: each cell below a key is the text of what e holds
      under that key, and e holds something under every one. */
  lemma MapTableHolds(d: Deriver, dv: Value, elemPath: string, title: string, e: nat, c: nat)
    requires IsMapList(dv) && IsUniform(d.decls, dv) && MapTable(d, dv, elemPath, title).Ok? && e < |dv.elems|
    requires forall j | 0 <= j < |dv.elems| :: DistinctKeys(EntriesOf(Deref(dv.elems[j])))
    requires c < |MapTable(d, dv, elemPath, title).value[0].columns|
    ensures var t, es := MapTable(d, dv, elemPath, title).value[0], EntriesOf(Deref(dv.elems[e]));
      && t.title == title
      && exists i :: 0 <= i < |es| && es[i].key == t.columns[c]
                     && Text(d, es[i].val, JoinPath(elemPath, es[i].key), es[i].key) == Ok(t.rows[e][c])
  {
    var first, es := EntriesOf(Deref(dv.elems[0])), EntriesOf(Deref(dv.elems[e]));
    var cols := Keys(first);
    var rows := MapTable(d, dv, elemPath, title).value[0].rows;
    MapRowAt(d, cols, dv.elems, elemPath, rows, e);
    MapCellAt(d, cols, es, elemPath, rows[e], c);
    assert FitsRow(d.decls, first, es);
    SameKeysBothWays(first, es);
    assert cols[c] in KeySet(first);
    var i :| 0 <= i < |es| && es[i].key == cols[c];
    LookupFinds(es, i);
  }

  // ---- tables as they are written -----------------------------------------------------------------------

  /** Every line a derived table is written as cuts into as many pieces as its header does. */
  lemma DerivedTablesAlign(d: Deriver, dv: Value, elemPath: string, title: string, line: string)
    requires IsTableSlice(d.decls, dv) || IsMapList(dv)
    requires var r := if IsTableSlice(d.decls, dv) then StructTable(d, dv, elemPath, title) else MapTable(d, dv, elemPath, title);
      && r.Ok?
      && exists c :: c in Markdown.TableChunks(r.value[0].columns, r.value[0].rows) && c.Row? && c.line == line
    ensures var r := if IsTableSlice(d.decls, dv) then StructTable(d, dv, elemPath, title) else MapTable(d, dv, elemPath, title);
      |Markdown.Pieces(line)| == |Markdown.Pieces(Markdown.RowLine(r.value[0].columns))|
  {
    var r := if IsTableSlice(d.decls, dv) then StructTable(d, dv, elemPath, title) else MapTable(d, dv, elemPath, title);
    Markdown.TableLinesAlign(r.value[0].columns, r.value[0].rows);
  }

  // ---- one block run per element ------------------------------------------------------------------------

  lemma {:induction false} ElementRunStops(d: Deriver, parent: Value, elems: seq<Value>, elemPath: string, i: nat)
    requires i <= |elems| && forall j | 0 <= j < |elems| :: elems[j] < parent
    requires ElementRun(d, parent, elems[..i], elemPath).Err?
    ensures ElementRun(d, parent, elems, elemPath) == ElementRun(d, parent, elems[..i], elemPath)
    decreases |elems|
  {
    if i < |elems| {
      assert elems[..|elems| - 1][..i] == elems[..i];
      ElementRunStops(d, parent, elems[..|elems| - 1], elemPath, i);
    } else {
      assert elems[..i] == elems;
    }
  }

  method WalkElementBlocks(d: Deriver, dv: Value, elemPath: string, title: string) returns (r: R)
    requires dv.List?
    ensures r == ElementBlocks(d, dv, elemPath, title)
  {
    var run: Doc := [];
    for i := 0 to |dv.elems|
      invariant ElementRun(d, dv, dv.elems[..i], elemPath) == Ok(run)
    {
      assert dv.elems[..i + 1][..i] == dv.elems[..i];
      var doc := Element(d, dv.elems[i], i, elemPath);
      if doc.Err? {
        ElementRunStops(d, dv, dv.elems, elemPath, i + 1);
        return doc;
      }
      run := run + doc.value;
    }
    assert dv.elems[..|dv.elems|] == dv.elems;
    if title == "" {
      return Ok(run);
    }
    return Ok([Section(title, run)]);
  }

  /** Runs one after the other; or the first failure. */
  function Chain(runs: seq<R>): R {
    if runs == [] then Ok([])
    else
      var front, last := Chain(runs[..|runs| - 1]), runs[|runs| - 1];
      if front.Err? then front else if last.Err? then last else Ok(front.value + last.value)
  }

  lemma {:induction false} ElementsChain(d: Deriver, parent: Value, elems: seq<Value>, elemPath: string, runs: seq<R>)
    requires |runs| == |elems| && forall j | 0 <= j < |elems| :: elems[j] < parent
    requires forall j | 0 <= j < |elems| :: runs[j] == Element(d, elems[j], j, elemPath)
    ensures ElementRun(d, parent, elems, elemPath) == Chain(runs)
    decreases |elems|
  {
    if elems != [] {
      ElementsChain(d, parent, elems[..|elems| - 1], elemPath, runs[..|elems| - 1]);
    }
  }

  lemma {:induction false} ChainFlattens(runs: seq<R>, docs: seq<Doc>)
    requires |runs| == |docs| && forall j | 0 <= j < |docs| :: runs[j] == Ok(docs[j])
    ensures Chain(runs) == Ok(Flatten(docs))
  {
    if docs != [] {
      var k := |docs| - 1;
      ChainFlattens(runs[..k], docs[..k]);
      assert docs == docs[..k] + [docs[k]];
      FlattenAppend(docs[..k], docs[k]);
    }
  }

  /** The run is the elements' documents, one after the other, each derived as its own node. */
  lemma ElementsInOrder(d: Deriver, parent: Value, elems: seq<Value>, elemPath: string, runs: seq<R>, docs: seq<Doc>)
    requires |runs| == |docs| == |elems| && forall j | 0 <= j < |elems| :: elems[j] < parent
    requires forall j | 0 <= j < |elems| :: runs[j] == Element(d, elems[j], j, elemPath) && runs[j] == Ok(docs[j])
    ensures ElementRun(d, parent, elems, elemPath) == Ok(Flatten(docs))
  {
    ElementsChain(d, parent, elems, elemPath, runs);
    ChainFlattens(runs, docs);
  }

  method WalkElementViews(d: Deriver, dv: Value, elemPath: string) returns (any: bool)
    requires dv.List?
    ensures any == ElementViews(d, dv, elemPath)
  {
    if elemPath in d.paths {
      return true;
    }
    for i := 0 to |dv.elems|
      invariant forall j | 0 <= j < i ::
        var ev := Deref(dv.elems[j]); ev.Nil? || (TypeOf(ev) !in d.callTypes && TypeOf(ev) !in d.printerTypes)
    {
      var ev := Deref(dv.elems[i]);
      if !ev.Nil? && (TypeOf(ev) in d.callTypes || TypeOf(ev) in d.printerTypes) {
        return true;
      }
    }
    return false;
  }

  // ---- a view read inline -------------------------------------------------------------------------------

  lemma {:induction false} InlineBlocksStop(doc: Doc, i: nat)
    requires i <= |doc| && InlineBlocks(doc[..i]).Err?
    ensures InlineBlocks(doc) == InlineBlocks(doc[..i])
    decreases |doc|
  {
    if i < |doc| {
      assert doc[..|doc| - 1][..i] == doc[..i];
      InlineBlocksStop(doc[..|doc| - 1], i);
    } else {
      assert doc[..i] == doc;
    }
  }

  method WalkInlineDoc(doc: Doc) returns (r: Result<string, Error>)
    ensures r == InlineDoc(doc)
  {
    var parts: seq<string> := [];
    for i := 0 to |doc|
      invariant InlineBlocks(doc[..i]) == Ok(parts)
    {
      assert doc[..i + 1][..i] == doc[..i];
      match doc[i]
      case Para(text) => parts := parts + [text];
      case Field(_, value) => parts := parts + [value];
      case List(_, items) => parts := parts + [Join(", ", items)];
      case _ =>
        InlineBlocksStop(doc, i + 1);
        return Err(Error(None, NotInline));
    }
    assert doc[..|doc|] == doc;
    return Ok(Join(", ", parts));
  }

  /** Only what reads as one value has an inline form: no Section or Table. */
  lemma {:induction false} InlineIffFlat(doc: Doc)
    ensures InlineDoc(doc).Ok? <==> forall i | 0 <= i < |doc| :: !doc[i].Section? && !doc[i].Table?
  {
    if doc != [] {
      var k := |doc| - 1;
      InlineIffFlat(doc[..k]);
      assert forall i | 0 <= i < k :: doc[..k][i] == doc[i];
    }
  }

  // ---- layers -------------------------------------------------------------------------------------------

  /** A view that adds a mark after what it is given. */
  function Mark(mark: string): View {
    (arg: ViewArg) => if arg.derived.Err? then arg.derived else Ok(arg.derived.value + [Para(mark)])
  }

  lemma MarkedLayers(d: Deriver, path: string, v: Value, top: seq<string>, call: seq<string>, printer: seq<string>)
    requires !Deref(v).Nil?
    requires if path in d.paths then d.paths[path] == Mark("path") && top == ["path"] else top == []
    requires var t := TypeOf(Deref(v));
      if t in d.callTypes then d.callTypes[t] == Mark("call") && call == ["call"] else call == []
    requires var t := TypeOf(Deref(v));
      if t in d.printerTypes then d.printerTypes[t] == Mark("printer") && printer == ["printer"] else printer == []
    ensures Layers(d, path, v) == Map(Mark, top) + (Map(Mark, call) + Map(Mark, printer))
  {
  }

  /** Each layer that applies runs exactly once: the Printer's type view over the base, the call's type
      view over that, the path view over both. */
  lemma LayersRunOnceInOrder(d: Deriver, path: string, caption: string, v: Value, base: Doc)
    requires !Deref(v).Nil?
    requires path in d.paths ==> d.paths[path] == Mark("path")
    requires TypeOf(Deref(v)) in d.callTypes ==> d.callTypes[TypeOf(Deref(v))] == Mark("call")
    requires TypeOf(Deref(v)) in d.printerTypes ==> d.printerTypes[TypeOf(Deref(v))] == Mark("printer")
    ensures Node(d, path, caption, v, Ok(base))
         == Ok(base + (if TypeOf(Deref(v)) in d.printerTypes then [Para("printer")] else [])
                    + (if TypeOf(Deref(v)) in d.callTypes then [Para("call")] else [])
                    + (if path in d.paths then [Para("path")] else []))
  {
    var t := TypeOf(Deref(v));
    var printer := if t in d.printerTypes then ["printer"] else [];
    var call := if t in d.callTypes then ["call"] else [];
    var top := if path in d.paths then ["path"] else [];
    assert Layers(d, path, v) == Map(Mark, top) + (Map(Mark, call) + Map(Mark, printer)) by {
      MarkedLayers(d, path, v, top, call, printer);
    }
    MarkedOnce(path, caption, v, base, printer, []);
    MarkedOnce(path, caption, v, base, call, Map(Mark, printer));
    MarkedOnce(path, caption, v, base, top, Map(Mark, call) + Map(Mark, printer));
    assert Map(Mark, printer) + [] == Map(Mark, printer);
  }

  /** At most one more mark on top of the layers below. */
  lemma MarkedOnce(path: string, caption: string, v: Value, base: Doc, marks: seq<string>, below: seq<View>)
    requires |marks| <= 1 && Eval(path, caption, v, Ok(base), below).Ok?
    ensures Eval(path, caption, v, Ok(base), Map(Mark, marks) + below)
         == Ok(Eval(path, caption, v, Ok(base), below).value + if marks == [] then [] else [Para(marks[0])])
  {
    var doc := Eval(path, caption, v, Ok(base), below).value;
    if marks == [] {
      assert Map(Mark, marks) + below == below && doc + [] == doc;
    } else {
      assert (Map(Mark, marks) + below)[1..] == below;
    }
  }
}

/** The paths the derivation of a value asks its path views for (pkg/clifmt/derive.go).

    A view put at a path can change what is derived exactly when the walk asks for that path. The set of
    them is read off the value, without deriving it: its members, its lists' elements and its tables'
    cells, each under the path the walk spells for it, whatever the names and keys in it look like. */
module Asked {
  import opened Base
  import opened Docs
  import opened Derive

  // ---- what is asked for ----------------------------------------------------------------------------

  /** The elements of such a list are rows, unless a view addresses them. */
  predicate TableShaped(decls: Decls, dv: Value)
    requires dv.List?
  {
    IsTableSlice(decls, dv) || (IsMapList(dv) && IsUniform(decls, dv))
  }

  predicate HasCells(fields: seq<FieldDecl>, elem: Value) { elem.Struct? && |elem.fields| == |fields| }

  ghost function CellsAsk(fields: seq<FieldDecl>, elemPath: string): set<string> {
    set i | 0 <= i < |fields| && Visible(fields[i]) :: JoinPath(elemPath, fields[i].name)
  }

  ghost function RowsAsk(fields: seq<FieldDecl>, elems: seq<Value>, elemPath: string): set<string> {
    if exists i :: 0 <= i < |elems| && HasCells(fields, Deref(elems[i])) then CellsAsk(fields, elemPath) else {}
  }

  ghost function ColsAsk(cols: seq<string>, elemPath: string): set<string> {
    set i | 0 <= i < |cols| :: JoinPath(elemPath, cols[i])
  }

  ghost function TableAsks(d: Deriver, dv: Value, elemPath: string): set<string>
    requires dv.List? && TableShaped(d.decls, dv)
  {
    if !IsTableSlice(d.decls, dv) then ColsAsk(Keys(EntriesOf(Deref(dv.elems[0]))), elemPath)
    else
      var typ := DerefType(ElemType(d.decls, dv.typ)).name;
      if BadlyTagged(d.decls, typ) then {} else RowsAsk(FieldsOf(d.decls, typ), dv.elems, elemPath)
  }

  ghost function MemberAsks(d: Deriver, fv: Value, path: string): set<string>
    decreases fv, 4, 0
  {
    {path} + BaseAsks(d, fv, path)
  }

  ghost function BaseAsks(d: Deriver, fv: Value, path: string): set<string>
    decreases fv, 3, 0
  {
    var dv := Deref(fv);
    if Classify(d.decls, dv).ScalarField? then
      if dv.List? && !HasStringForm(d.decls, dv) && dv.elems != [] then {path + "[]"} else {}
    else if dv.List? then ListAsks(d, dv, path)
    else MembersAsk(d, dv, path)
  }

  ghost function MembersAsk(d: Deriver, dv: Value, path: string): set<string>
    decreases dv, 1, 0
  {
    var items := Items(d.decls, dv);
    if dv.Nil? || items.Err? then {} else ItemsAsk(d, dv, items.value, path)
  }

  ghost function ItemsAsk(d: Deriver, parent: Value, items: seq<Item>, path: string): set<string>
    requires forall i | 0 <= i < |items| :: items[i].val < parent
    decreases parent, 0, |items|
  {
    if items == [] then {}
    else
      var k := |items| - 1;
      ItemsAsk(d, parent, items[..k], path) + MemberAsks(d, items[k].val, JoinPath(path, items[k].name))
  }

  ghost function ListAsks(d: Deriver, dv: Value, path: string): set<string>
    requires dv.List?
    decreases dv, 2, 0
  {
    var elemPath := path + "[]";
    {elemPath} +
    if !ElementViews(d, dv, elemPath) && TableShaped(d.decls, dv) then TableAsks(d, dv, elemPath)
    else ElementsAsk(d, dv, dv.elems, elemPath)
  }

  ghost function ElementsAsk(d: Deriver, parent: Value, elems: seq<Value>, elemPath: string): set<string>
    requires forall i | 0 <= i < |elems| :: elems[i] < parent
    decreases parent, 0, |elems|
  {
    if elems == [] then {}
    else
      var k := |elems| - 1;
      ElementsAsk(d, parent, elems[..k], elemPath) + MembersAsk(d, Deref(elems[k]), elemPath)
  }

  /** Every path at which the derivation of v by d looks for a view. */
  ghost function PathsAsked(d: Deriver, v: Value): set<string> {
    var dv := Deref(v);
    var kind := Classify(d.decls, dv);
    {""} +
    if dv.List? && !kind.ScalarField? then ListAsks(d, dv, "")
    else if dv.List? then if dv.elems == [] then {} else {"[]"}
    else if kind.SectionField? then MembersAsk(d, dv, "")
    else {}
  }

  // ---- two derivers that agree on what is asked for -----------------------------------------------------

  ghost predicate AgreeAt(d: Deriver, e: Deriver, path: string) {
    && (path in d.paths <==> path in e.paths)
    && (path in d.paths ==> d.paths[path] == e.paths[path])
  }

  ghost predicate SameTypeViews(d: Deriver, e: Deriver) {
    d.decls == e.decls && d.callTypes == e.callTypes && d.printerTypes == e.printerTypes
  }

  ghost predicate Agree(d: Deriver, e: Deriver, paths: set<string>) {
    SameTypeViews(d, e) && forall p | p in paths :: AgreeAt(d, e, p)
  }

  lemma TextSame(d: Deriver, e: Deriver, v: Value, path: string, caption: string)
    requires Agree(d, e, {path})
    ensures Text(d, v, path, caption) == Text(e, v, path, caption)
  {
    assert Layers(d, path, v) == Layers(e, path, v);
  }

  lemma NodeSame(d: Deriver, e: Deriver, path: string, caption: string, v: Value, base: R)
    requires Agree(d, e, {path})
    ensures Node(d, path, caption, v, base) == Node(e, path, caption, v, base)
  {
    assert Layers(d, path, v) == Layers(e, path, v);
  }

  lemma TextsSame(d: Deriver, e: Deriver, vs: seq<Value>, path: string)
    requires Agree(d, e, if vs == [] then {} else {path})
    ensures Texts(d, vs, path) == Texts(e, vs, path)
  {
    if vs != [] {
      TextsSame(d, e, vs[..|vs| - 1], path);
      TextSame(d, e, vs[|vs| - 1], path, "");
    }
  }

  lemma CellsSame(d: Deriver, e: Deriver, fields: seq<FieldDecl>, vals: seq<Value>, elemPath: string)
    requires |fields| == |vals| && Agree(d, e, CellsAsk(fields, elemPath))
    ensures Cells(d, fields, vals, elemPath) == Cells(e, fields, vals, elemPath)
  {
    if fields != [] {
      var k := |fields| - 1;
      assert CellsAsk(fields[..k], elemPath) <= CellsAsk(fields, elemPath) by {
        assert forall i | 0 <= i < k :: fields[..k][i] == fields[i];
      }
      CellsSame(d, e, fields[..k], vals[..k], elemPath);
      if Visible(fields[k]) {
        assert JoinPath(elemPath, fields[k].name) in CellsAsk(fields, elemPath);
        TextSame(d, e, vals[k], JoinPath(elemPath, fields[k].name), fields[k].caption);
      }
    }
  }

  lemma RowsAskGrow(fields: seq<FieldDecl>, elems: seq<Value>, elemPath: string, k: nat)
    requires k < |elems|
    ensures RowsAsk(fields, elems[..k], elemPath) <= RowsAsk(fields, elems, elemPath)
    ensures HasCells(fields, Deref(elems[k])) ==> RowsAsk(fields, elems, elemPath) == CellsAsk(fields, elemPath)
  {
    assert forall i | 0 <= i < k :: elems[..k][i] == elems[i];
  }

  lemma StructRowsSame(d: Deriver, e: Deriver, fields: seq<FieldDecl>, elems: seq<Value>, elemPath: string)
    requires Agree(d, e, RowsAsk(fields, elems, elemPath))
    ensures StructRows(d, fields, elems, elemPath) == StructRows(e, fields, elems, elemPath)
  {
    if elems != [] {
      var k := |elems| - 1;
      RowsAskGrow(fields, elems, elemPath, k);
      StructRowsSame(d, e, fields, elems[..k], elemPath);
      var elem := Deref(elems[k]);
      if HasCells(fields, elem) {
        CellsSame(d, e, fields, elem.fields, elemPath);
      }
    }
  }

  lemma MapRowSame(d: Deriver, e: Deriver, cols: seq<string>, es: seq<Entry>, elemPath: string)
    requires Agree(d, e, ColsAsk(cols, elemPath))
    ensures MapRow(d, cols, es, elemPath) == MapRow(e, cols, es, elemPath)
  {
    if cols != [] {
      var k := |cols| - 1;
      assert ColsAsk(cols[..k], elemPath) <= ColsAsk(cols, elemPath) by {
        assert forall i | 0 <= i < k :: cols[..k][i] == cols[i];
      }
      MapRowSame(d, e, cols[..k], es, elemPath);
      assert JoinPath(elemPath, cols[k]) in ColsAsk(cols, elemPath);
      TextSame(d, e, Lookup(es, cols[k]), JoinPath(elemPath, cols[k]), cols[k]);
    }
  }

  lemma MapRowsSame(d: Deriver, e: Deriver, cols: seq<string>, elems: seq<Value>, elemPath: string)
    requires Agree(d, e, ColsAsk(cols, elemPath))
    ensures MapRows(d, cols, elems, elemPath) == MapRows(e, cols, elems, elemPath)
  {
    if elems != [] {
      var k := |elems| - 1;
      MapRowsSame(d, e, cols, elems[..k], elemPath);
      MapRowSame(d, e, cols, EntriesOf(Deref(elems[k])), elemPath);
    }
  }

  lemma TableSame(d: Deriver, e: Deriver, dv: Value, path: string, title: string)
    requires dv.List? && TableShaped(d.decls, dv) && Agree(d, e, TableAsks(d, dv, path + "[]"))
    requires !ElementViews(d, dv, path + "[]") && !ElementViews(e, dv, path + "[]")
    ensures ListBlocks(d, dv, path, title) == ListBlocks(e, dv, path, title)
  {
    var elemPath := path + "[]";
    if IsTableSlice(d.decls, dv) {
      var typ := DerefType(ElemType(d.decls, dv.typ)).name;
      if !BadlyTagged(d.decls, typ) {
        StructRowsSame(d, e, FieldsOf(d.decls, typ), dv.elems, elemPath);
      }
    } else {
      MapRowsSame(d, e, Keys(EntriesOf(Deref(dv.elems[0]))), dv.elems, elemPath);
    }
  }

  lemma MemberSame(d: Deriver, e: Deriver, fv: Value, path: string, caption: string)
    requires Agree(d, e, MemberAsks(d, fv, path))
    ensures Member(d, fv, path, caption) == Member(e, fv, path, caption)
    decreases fv, 4, 0
  {
    BaseSame(d, e, fv, path, caption);
    NodeSame(d, e, path, caption, fv, MemberBase(d, fv, path, caption));
  }

  lemma BaseSame(d: Deriver, e: Deriver, fv: Value, path: string, caption: string)
    requires Agree(d, e, BaseAsks(d, fv, path))
    ensures MemberBase(d, fv, path, caption) == MemberBase(e, fv, path, caption)
    decreases fv, 3, 0
  {
    var dv := Deref(fv);
    if Classify(d.decls, dv).ScalarField? {
      if dv.List? && !HasStringForm(d.decls, dv) {
        TextsSame(d, e, dv.elems, path + "[]");
      }
    } else if dv.List? {
      ListSame(d, e, dv, path, caption);
    } else {
      MembersSame(d, e, dv, path);
    }
  }

  lemma MembersSame(d: Deriver, e: Deriver, dv: Value, path: string)
    requires Agree(d, e, MembersAsk(d, dv, path))
    ensures Members(d, dv, path) == Members(e, dv, path)
    decreases dv, 1, 0
  {
    var items := Items(d.decls, dv);
    if !dv.Nil? && items.Ok? {
      ItemsSame(d, e, dv, items.value, path);
    }
  }

  lemma ItemsSame(d: Deriver, e: Deriver, parent: Value, items: seq<Item>, path: string)
    requires forall i | 0 <= i < |items| :: items[i].val < parent
    requires Agree(d, e, ItemsAsk(d, parent, items, path))
    ensures MembersOf(d, parent, items, path) == MembersOf(e, parent, items, path)
    decreases parent, 0, |items|
  {
    if items != [] {
      var k := |items| - 1;
      ItemsSame(d, e, parent, items[..k], path);
      MemberSame(d, e, items[k].val, JoinPath(path, items[k].name), items[k].caption);
    }
  }

  lemma ListSame(d: Deriver, e: Deriver, dv: Value, path: string, title: string)
    requires dv.List? && Agree(d, e, ListAsks(d, dv, path))
    ensures ListBlocks(d, dv, path, title) == ListBlocks(e, dv, path, title)
    decreases dv, 2, 0
  {
    var elemPath := path + "[]";
    assert AgreeAt(d, e, elemPath);
    assert ElementViews(d, dv, elemPath) <==> ElementViews(e, dv, elemPath);
    if !ElementViews(d, dv, elemPath) && TableShaped(d.decls, dv) {
      TableSame(d, e, dv, path, title);
    } else {
      ElementsSame(d, e, dv, dv.elems, elemPath);
    }
  }

  lemma ElementsSame(d: Deriver, e: Deriver, parent: Value, elems: seq<Value>, elemPath: string)
    requires forall i | 0 <= i < |elems| :: elems[i] < parent
    requires Agree(d, e, {elemPath} + ElementsAsk(d, parent, elems, elemPath))
    ensures ElementRun(d, parent, elems, elemPath) == ElementRun(e, parent, elems, elemPath)
    decreases parent, 0, |elems|
  {
    if elems != [] {
      var k := |elems| - 1;
      ElementsSame(d, e, parent, elems[..k], elemPath);
      MembersSame(d, e, Deref(elems[k]), elemPath);
      var body := Members(d, Deref(elems[k]), elemPath);
      NodeSame(d, e, elemPath, Ordinal(k), elems[k], if body.Err? then body else Ok([Section(Ordinal(k), body.value)]));
    }
  }

  /** Derivers that agree on the views at the paths asked for derive the same view. */
  lemma RootSame(d: Deriver, e: Deriver, v: Value)
    requires Agree(d, e, PathsAsked(d, v))
    ensures Root(d, v) == Root(e, v)
  {
    var dv := Deref(v);
    if dv.List? && !Classify(d.decls, dv).ScalarField? {
      ListSame(d, e, dv, "", "");
    } else if dv.List? {
      TextsSame(d, e, dv.elems, "[]");
    } else if Classify(d.decls, dv).SectionField? {
      MembersSame(d, e, dv, "");
    }
    NodeSame(d, e, "", "", v, RootBase(d, v));
  }

  function Viewed(d: Deriver, path: string, view: View): Deriver { d.(paths := d.paths[path := view]) }

  /** Whatever the other views, a view put at a path that is not asked for changes nothing. */
  lemma UnaskedIsInert(d: Deriver, v: Value, path: string, view: View)
    requires path !in PathsAsked(d, v)
    ensures Root(Viewed(d, path, view), v) == Root(d, v)
  {
    RootSame(d, Viewed(d, path, view), v);
  }

  // ---- a value without views derives -------------------------------------------------------------------

  /** No custom views at all. */
  function Bare(decls: Decls): Deriver { Deriver(decls, map[], map[], map[]) }

  /** No type carries a malformed tag, the one reason a derivation without views has to fail. */
  ghost predicate WellTagged(decls: Decls) {
    forall n | n in decls :: !BadlyTagged(decls, n)
  }

  lemma InlineDerives(decls: Decls, v: Value, nested: bool)
    requires WellTagged(decls)
    ensures Inline(decls, v, nested).Ok?
    decreases v, 1, 0
  {
    var dv := Deref(v);
    if IsMapLike(dv) || dv.Struct? {
      InlineItemsDerive(decls, dv, Items(decls, dv).value);
    } else if dv.List? {
      InlineElemsDerive(decls, dv, dv.elems);
    }
  }

  lemma InlineItemsDerive(decls: Decls, parent: Value, items: seq<Item>)
    requires WellTagged(decls) && forall i | 0 <= i < |items| :: items[i].val < parent
    ensures InlineItems(decls, parent, items).Ok?
    decreases parent, 0, |items|
  {
    if items != [] {
      var k := |items| - 1;
      InlineItemsDerive(decls, parent, items[..k]);
      InlineDerives(decls, items[k].val, true);
    }
  }

  lemma InlineElemsDerive(decls: Decls, parent: Value, elems: seq<Value>)
    requires WellTagged(decls) && forall i | 0 <= i < |elems| :: elems[i] < parent
    ensures InlineElems(decls, parent, elems).Ok?
    decreases parent, 0, |elems|
  {
    if elems != [] {
      var k := |elems| - 1;
      InlineElemsDerive(decls, parent, elems[..k]);
      InlineDerives(decls, elems[k], true);
    }
  }

  lemma TextDerives(decls: Decls, v: Value, path: string, caption: string)
    requires WellTagged(decls)
    ensures Text(Bare(decls), v, path, caption).Ok?
  {
    InlineDerives(decls, v, false);
  }

  lemma TextsDerive(decls: Decls, vs: seq<Value>, path: string)
    requires WellTagged(decls)
    ensures Texts(Bare(decls), vs, path).Ok?
  {
    if vs != [] {
      TextsDerive(decls, vs[..|vs| - 1], path);
      TextDerives(decls, vs[|vs| - 1], path, "");
    }
  }

  lemma CellsDerive(decls: Decls, fields: seq<FieldDecl>, vals: seq<Value>, elemPath: string)
    requires WellTagged(decls) && |fields| == |vals|
    ensures Cells(Bare(decls), fields, vals, elemPath).Ok?
  {
    if fields != [] {
      var k := |fields| - 1;
      CellsDerive(decls, fields[..k], vals[..k], elemPath);
      TextDerives(decls, vals[k], JoinPath(elemPath, fields[k].name), fields[k].caption);
    }
  }

  lemma StructRowsDerive(decls: Decls, fields: seq<FieldDecl>, elems: seq<Value>, elemPath: string)
    requires WellTagged(decls)
    ensures StructRows(Bare(decls), fields, elems, elemPath).Ok?
  {
    if elems != [] {
      var k := |elems| - 1;
      StructRowsDerive(decls, fields, elems[..k], elemPath);
      if HasCells(fields, Deref(elems[k])) {
        CellsDerive(decls, fields, Deref(elems[k]).fields, elemPath);
      }
    }
  }

  lemma MapRowDerives(decls: Decls, cols: seq<string>, es: seq<Entry>, elemPath: string)
    requires WellTagged(decls)
    ensures MapRow(Bare(decls), cols, es, elemPath).Ok?
  {
    if cols != [] {
      var k := |cols| - 1;
      MapRowDerives(decls, cols[..k], es, elemPath);
      TextDerives(decls, Lookup(es, cols[k]), JoinPath(elemPath, cols[k]), cols[k]);
    }
  }

  lemma MapRowsDerive(decls: Decls, cols: seq<string>, elems: seq<Value>, elemPath: string)
    requires WellTagged(decls)
    ensures MapRows(Bare(decls), cols, elems, elemPath).Ok?
  {
    if elems != [] {
      var k := |elems| - 1;
      MapRowsDerive(decls, cols, elems[..k], elemPath);
      MapRowDerives(decls, cols, EntriesOf(Deref(elems[k])), elemPath);
    }
  }

  lemma MemberDerives(decls: Decls, fv: Value, path: string, caption: string)
    requires WellTagged(decls)
    ensures Member(Bare(decls), fv, path, caption).Ok?
    decreases fv, 4, 0
  {
    var dv := Deref(fv);
    if Classify(decls, dv).ScalarField? {
      if dv.List? {
        TextsDerive(decls, dv.elems, path + "[]");
      }
    } else if dv.List? {
      ListDerives(decls, dv, path, caption);
    } else {
      MembersDerive(decls, dv, path);
    }
  }

  lemma MembersDerive(decls: Decls, dv: Value, path: string)
    requires WellTagged(decls)
    ensures Members(Bare(decls), dv, path).Ok?
    decreases dv, 1, 0
  {
    if !dv.Nil? {
      ItemsDerive(decls, dv, Items(decls, dv).value, path);
    }
  }

  lemma ItemsDerive(decls: Decls, parent: Value, items: seq<Item>, path: string)
    requires WellTagged(decls) && forall i | 0 <= i < |items| :: items[i].val < parent
    ensures MembersOf(Bare(decls), parent, items, path).Ok?
    decreases parent, 0, |items|
  {
    if items != [] {
      var k := |items| - 1;
      ItemsDerive(decls, parent, items[..k], path);
      MemberDerives(decls, items[k].val, JoinPath(path, items[k].name), items[k].caption);
    }
  }

  lemma TableDerives(decls: Decls, dv: Value, path: string, title: string)
    requires WellTagged(decls) && dv.List? && TableShaped(decls, dv)
    ensures ListBlocks(Bare(decls), dv, path, title).Ok?
  {
    var elemPath := path + "[]";
    assert !ElementViews(Bare(decls), dv, elemPath);
    if IsTableSlice(decls, dv) {
      StructRowsDerive(decls, FieldsOf(decls, DerefType(ElemType(decls, dv.typ)).name), dv.elems, elemPath);
    } else {
      MapRowsDerive(decls, Keys(EntriesOf(Deref(dv.elems[0]))), dv.elems, elemPath);
    }
  }

  lemma ListDerives(decls: Decls, dv: Value, path: string, title: string)
    requires WellTagged(decls) && dv.List?
    ensures ListBlocks(Bare(decls), dv, path, title).Ok?
    decreases dv, 2, 0
  {
    if TableShaped(decls, dv) {
      TableDerives(decls, dv, path, title);
    } else {
      assert !ElementViews(Bare(decls), dv, path + "[]");
      ElementsDerive(decls, dv, dv.elems, path + "[]");
    }
  }

  lemma ElementsDerive(decls: Decls, parent: Value, elems: seq<Value>, elemPath: string)
    requires WellTagged(decls) && forall i | 0 <= i < |elems| :: elems[i] < parent
    ensures ElementRun(Bare(decls), parent, elems, elemPath).Ok?
    decreases parent, 0, |elems|
  {
    if elems != [] {
      var k := |elems| - 1;
      ElementsDerive(decls, parent, elems[..k], elemPath);
      MembersDerive(decls, Deref(elems[k]), elemPath);
    }
  }

  /** Without views and without a malformed tag, every value derives. */
  lemma BareDerives(decls: Decls, v: Value)
    requires WellTagged(decls)
    ensures Root(Bare(decls), v).Ok?
  {
    var dv := Deref(v);
    if dv.List? && !Classify(decls, dv).ScalarField? {
      ListDerives(decls, dv, "", "");
    } else if dv.List? {
      TextsDerive(decls, dv.elems, "[]");
    } else if Classify(decls, dv).SectionField? {
      MembersDerive(decls, dv, "");
    }
  }

  // ---- what is asked for can change the view ------------------------------------------------------------

  /** How many tables a document holds, at any nesting. */
  function Tables(doc: Doc): nat
    decreases doc, 0
  {
    if doc == [] then 0 else Tables(doc[..|doc| - 1]) + TablesIn(doc[|doc| - 1])
  }

  function TablesIn(b: Block): nat
    decreases b, 1
  {
    match b
    case Section(_, body) => Tables(body)
    case Table(_, _, _) => 1
    case _ => 0
  }

  lemma {:induction false} TablesConcat(a: Doc, b: Doc)
    ensures Tables(a + b) == Tables(a) + Tables(b)
    decreases |b|
  {
    if b == [] {
      assert a + b == a;
    } else {
      var k := |b| - 1;
      assert (a + b)[..|a| + k] == a + b[..k];
      TablesConcat(a, b[..k]);
    }
  }

  lemma TablesOfOne(b: Block)
    ensures Tables([b]) == TablesIn(b)
  {
    assert [b][..0] == [];
  }

  function TablesInAll(b: Buckets): nat { Tables(b.scalars) + Tables(b.sections) + Tables(b.tables) }

  lemma TablesAdd(b: Buckets, kind: FieldKind, doc: Doc)
    ensures TablesInAll(b.Add(kind, doc)) == TablesInAll(b) + Tables(doc)
  {
    TablesConcat(b.scalars, doc);
    TablesConcat(b.sections, doc);
    TablesConcat(b.tables, doc);
  }

  lemma TablesOfAll(b: Buckets)
    ensures Tables(b.All()) == TablesInAll(b)
  {
    TablesConcat(b.scalars, b.sections);
    TablesConcat(b.scalars + b.sections, b.tables);
  }

  /** A view that fails. */
  const FAILING: View := arg => Err(Error(None, OfView(0)))

  function Failing(decls: Decls, path: string): Deriver { Viewed(Bare(decls), path, FAILING) }

  /** A derivation, and the same with a view that fails: where the view is asked for, a failure or a
      table less; elsewhere no difference. */
  ghost predicate Hit(asked: bool, before: R, after: R) {
    if asked then after.Err? || (before.Ok? && Tables(after.value) < Tables(before.value)) else after == before
  }

  lemma NodeHit(decls: Decls, p: string, path: string, caption: string, v: Value, base: R)
    ensures Node(Bare(decls), path, caption, v, base) == base
    ensures var r := Node(Failing(decls, p), path, caption, v, base); if p == path then r.Err? else r == base
  {
    assert Layers(Bare(decls), path, v) == [];
    assert Layers(Failing(decls, p), path, v) == if p == path then [FAILING] else [];
  }

  lemma TextHit(decls: Decls, v: Value, path: string, caption: string)
    ensures Text(Failing(decls, path), v, path, caption).Err?
  {
    assert Layers(Failing(decls, path), path, v) == [FAILING];
  }

  lemma TextsHit(decls: Decls, vs: seq<Value>, path: string)
    requires vs != []
    ensures Texts(Failing(decls, path), vs, path).Err?
  {
    TextHit(decls, vs[|vs| - 1], path, "");
  }

  lemma CellsHit(decls: Decls, p: string, fields: seq<FieldDecl>, vals: seq<Value>, elemPath: string)
    requires |fields| == |vals| && p in CellsAsk(fields, elemPath)
    ensures Cells(Failing(decls, p), fields, vals, elemPath).Err?
  {
    var k := |fields| - 1;
    if Visible(fields[k]) && p == JoinPath(elemPath, fields[k].name) {
      TextHit(decls, vals[k], p, fields[k].caption);
    } else {
      var i :| 0 <= i < |fields| && Visible(fields[i]) && JoinPath(elemPath, fields[i].name) == p;
      assert fields[..k][i] == fields[i];
      CellsHit(decls, p, fields[..k], vals[..k], elemPath);
    }
  }

  lemma StructRowsHit(decls: Decls, p: string, fields: seq<FieldDecl>, elems: seq<Value>, elemPath: string)
    requires p in RowsAsk(fields, elems, elemPath)
    ensures StructRows(Failing(decls, p), fields, elems, elemPath).Err?
  {
    var k := |elems| - 1;
    if HasCells(fields, Deref(elems[k])) {
      CellsHit(decls, p, fields, Deref(elems[k]).fields, elemPath);
    } else {
      var i :| 0 <= i < |elems| && HasCells(fields, Deref(elems[i]));
      assert elems[..k][i] == elems[i];
      StructRowsHit(decls, p, fields, elems[..k], elemPath);
    }
  }

  lemma MapRowHit(decls: Decls, p: string, cols: seq<string>, es: seq<Entry>, elemPath: string)
    requires p in ColsAsk(cols, elemPath)
    ensures MapRow(Failing(decls, p), cols, es, elemPath).Err?
  {
    var k := |cols| - 1;
    if p == JoinPath(elemPath, cols[k]) {
      TextHit(decls, Lookup(es, cols[k]), p, cols[k]);
    } else {
      var i :| 0 <= i < |cols| && JoinPath(elemPath, cols[i]) == p;
      assert cols[..k][i] == cols[i];
      MapRowHit(decls, p, cols[..k], es, elemPath);
    }
  }

  lemma MapRowsHit(decls: Decls, p: string, cols: seq<string>, elems: seq<Value>, elemPath: string)
    requires p in ColsAsk(cols, elemPath) && elems != []
    ensures MapRows(Failing(decls, p), cols, elems, elemPath).Err?
  {
    MapRowHit(decls, p, cols, EntriesOf(Deref(elems[|elems| - 1])), elemPath);
  }

  lemma MemberHit(decls: Decls, p: string, fv: Value, path: string, caption: string)
    requires Member(Bare(decls), fv, path, caption).Ok?
    ensures Hit(p in MemberAsks(Bare(decls), fv, path),
                Member(Bare(decls), fv, path, caption), Member(Failing(decls, p), fv, path, caption))
    decreases fv, 4, 0
  {
    var d, e := Bare(decls), Failing(decls, p);
    var before, after := MemberBase(d, fv, path, caption), MemberBase(e, fv, path, caption);
    NodeHit(decls, p, path, caption, fv, before);
    NodeHit(decls, p, path, caption, fv, after);
    if p != path {
      BaseHit(decls, p, fv, path, caption);
      if after.Ok? {
        TablesOfLabelled(before.value, caption);
        TablesOfLabelled(after.value, caption);
      }
    }
  }

  lemma TablesOfLabelled(doc: Doc, caption: string)
    ensures Tables(LabelLonePara(doc, caption)) == Tables(doc)
  {
    if |doc| == 1 && doc[0].Para? {
      assert doc == [doc[0]];
      TablesOfOne(doc[0]);
      TablesOfOne(Field(caption, doc[0].text));
    }
  }

  lemma BaseHit(decls: Decls, p: string, fv: Value, path: string, caption: string)
    requires MemberBase(Bare(decls), fv, path, caption).Ok?
    ensures Hit(p in BaseAsks(Bare(decls), fv, path),
                MemberBase(Bare(decls), fv, path, caption), MemberBase(Failing(decls, p), fv, path, caption))
    decreases fv, 3, 0
  {
    var d, e, dv := Bare(decls), Failing(decls, p), Deref(fv);
    if p !in BaseAsks(d, fv, path) {
      BaseSame(d, e, fv, path, caption);
    } else if Classify(decls, dv).ScalarField? {
      TextsHit(decls, dv.elems, p);
    } else if dv.List? {
      ListHit(decls, p, dv, path, caption);
    } else {
      MembersHit(decls, p, dv, path);
      TablesOfSection(caption, Members(d, dv, path), Members(e, dv, path));
    }
  }

  lemma TablesOfSection(title: string, a: R, b: R)
    ensures a.Ok? ==> Tables([Section(title, a.value)]) == Tables(a.value)
    ensures b.Ok? ==> Tables([Section(title, b.value)]) == Tables(b.value)
  {
    if a.Ok? { TablesOfOne(Section(title, a.value)); }
    if b.Ok? { TablesOfOne(Section(title, b.value)); }
  }

  lemma MembersHit(decls: Decls, p: string, dv: Value, path: string)
    requires Members(Bare(decls), dv, path).Ok?
    ensures Hit(p in MembersAsk(Bare(decls), dv, path), Members(Bare(decls), dv, path), Members(Failing(decls, p), dv, path))
    decreases dv, 1, 0
  {
    if !dv.Nil? {
      var items := Items(decls, dv).value;
      ItemsHit(decls, p, dv, items, path);
      var before, after := MembersOf(Bare(decls), dv, items, path), MembersOf(Failing(decls, p), dv, items, path);
      TablesOfAll(before.value);
      if after.Ok? {
        TablesOfAll(after.value);
      }
    }
  }

  lemma ItemsHit(decls: Decls, p: string, parent: Value, items: seq<Item>, path: string)
    requires forall i | 0 <= i < |items| :: items[i].val < parent
    requires MembersOf(Bare(decls), parent, items, path).Ok?
    ensures var before, after := MembersOf(Bare(decls), parent, items, path), MembersOf(Failing(decls, p), parent, items, path);
      if p in ItemsAsk(Bare(decls), parent, items, path)
      then after.Err? || TablesInAll(after.value) < TablesInAll(before.value) else after == before
    decreases parent, 0, |items|
  {
    if items != [] {
      var d, e, k := Bare(decls), Failing(decls, p), |items| - 1;
      var item := items[k];
      ItemsHit(decls, p, parent, items[..k], path);
      MemberHit(decls, p, item.val, JoinPath(path, item.name), item.caption);
      var front, front' := MembersOf(d, parent, items[..k], path), MembersOf(e, parent, items[..k], path);
      var doc, doc' := Member(d, item.val, JoinPath(path, item.name), item.caption),
                       Member(e, item.val, JoinPath(path, item.name), item.caption);
      TablesAdd(front.value, Classify(decls, Deref(item.val)), doc.value);
      if front'.Ok? && doc'.Ok? {
        TablesAdd(front'.value, Classify(decls, Deref(item.val)), doc'.value);
      }
    }
  }

  lemma ListHit(decls: Decls, p: string, dv: Value, path: string, title: string)
    requires dv.List? && (IsTableSlice(decls, dv) || IsMapList(dv)) && ListBlocks(Bare(decls), dv, path, title).Ok?
    requires p in ListAsks(Bare(decls), dv, path)
    ensures Hit(true, ListBlocks(Bare(decls), dv, path, title), ListBlocks(Failing(decls, p), dv, path, title))
    decreases dv, 2, 0
  {
    var d, e, elemPath := Bare(decls), Failing(decls, p), path + "[]";
    assert !ElementViews(d, dv, elemPath);
    if p == elemPath {
      assert ElementViews(e, dv, elemPath);
      ElementPathHit(decls, dv, path, title);
    } else {
      assert !ElementViews(e, dv, elemPath);
      if !TableShaped(decls, dv) {
        ElementsHit(decls, p, dv, dv.elems, elemPath);
        TablesOfSection(title, ElementRun(d, dv, dv.elems, elemPath), ElementRun(e, dv, dv.elems, elemPath));
      } else if IsTableSlice(decls, dv) {
        StructRowsHit(decls, p, FieldsOf(decls, DerefType(ElemType(decls, dv.typ)).name), dv.elems, elemPath);
      } else {
        MapRowsHit(decls, p, Keys(EntriesOf(Deref(dv.elems[0]))), dv.elems, elemPath);
      }
    }
  }

  /** A view of a list's elements runs once for each; where there is none, their table is gone. */
  lemma ElementPathHit(decls: Decls, dv: Value, path: string, title: string)
    requires dv.List? && (IsTableSlice(decls, dv) || IsMapList(dv)) && ListBlocks(Bare(decls), dv, path, title).Ok?
    ensures Hit(true, ListBlocks(Bare(decls), dv, path, title), ListBlocks(Failing(decls, path + "[]"), dv, path, title))
  {
    var d, elemPath := Bare(decls), path + "[]";
    var e := Failing(decls, elemPath);
    assert !ElementViews(d, dv, elemPath) && ElementViews(e, dv, elemPath);
    if dv.elems != [] {
      var k := |dv.elems| - 1;
      var body := Members(e, Deref(dv.elems[k]), elemPath);
      var base := if body.Err? then body else Ok([Section(Ordinal(k), body.value)]);
      NodeHit(decls, elemPath, elemPath, Ordinal(k), dv.elems[k], base);
      assert ElementRun(e, dv, dv.elems, elemPath).Err?;
    } else {
      assert ListBlocks(d, dv, path, title) == StructTable(d, dv, elemPath, title);
      var shown := StructTable(d, dv, elemPath, title).value;
      assert shown == [shown[0]] && shown[0].Table?;
      TablesOfOne(shown[0]);
      assert ElementRun(e, dv, dv.elems, elemPath) == Ok([]);
      TablesOfOne(Section(title, []));
    }
  }

  lemma ElementsHit(decls: Decls, p: string, parent: Value, elems: seq<Value>, elemPath: string)
    requires p != elemPath && forall i | 0 <= i < |elems| :: elems[i] < parent
    requires ElementRun(Bare(decls), parent, elems, elemPath).Ok?
    ensures Hit(p in ElementsAsk(Bare(decls), parent, elems, elemPath),
                ElementRun(Bare(decls), parent, elems, elemPath), ElementRun(Failing(decls, p), parent, elems, elemPath))
    decreases parent, 0, |elems|
  {
    if elems != [] {
      var d, e, k := Bare(decls), Failing(decls, p), |elems| - 1;
      ElementsHit(decls, p, parent, elems[..k], elemPath);
      ElementHit(decls, p, elems[k], k, elemPath);
      var front, front' := ElementRun(d, parent, elems[..k], elemPath), ElementRun(e, parent, elems[..k], elemPath);
      var last, last' := Element(d, elems[k], k, elemPath), Element(e, elems[k], k, elemPath);
      TablesConcat(front.value, last.value);
      if front'.Ok? && last'.Ok? {
        TablesConcat(front'.value, last'.value);
      }
    }
  }

  lemma ElementHit(decls: Decls, p: string, ev: Value, i: nat, elemPath: string)
    requires p != elemPath && Element(Bare(decls), ev, i, elemPath).Ok?
    ensures Hit(p in MembersAsk(Bare(decls), Deref(ev), elemPath),
                Element(Bare(decls), ev, i, elemPath), Element(Failing(decls, p), ev, i, elemPath))
    decreases ev, 2, 0
  {
    var before, after := Members(Bare(decls), Deref(ev), elemPath), Members(Failing(decls, p), Deref(ev), elemPath);
    NodeHit(decls, p, elemPath, Ordinal(i), ev, if before.Err? then before else Ok([Section(Ordinal(i), before.value)]));
    NodeHit(decls, p, elemPath, Ordinal(i), ev, if after.Err? then after else Ok([Section(Ordinal(i), after.value)]));
    MembersHit(decls, p, Deref(ev), elemPath);
    TablesOfSection(Ordinal(i), before, after);
  }

  lemma RootHit(decls: Decls, v: Value, path: string)
    requires Root(Bare(decls), v).Ok? && path in PathsAsked(Bare(decls), v)
    ensures Hit(true, Root(Bare(decls), v), Root(Failing(decls, path), v))
  {
    var d, e, dv := Bare(decls), Failing(decls, path), Deref(v);
    NodeHit(decls, path, "", "", v, RootBase(d, v));
    NodeHit(decls, path, "", "", v, RootBase(e, v));
    if path != "" {
      if dv.List? && !Classify(decls, dv).ScalarField? {
        ListHit(decls, path, dv, "", "");
      } else if dv.List? {
        TextsHit(decls, dv.elems, path);
      } else {
        MembersHit(decls, path, dv, "");
      }
    }
  }

  /** A path is inert for a value, whatever view is put there, exactly when the walk does not ask for it. */
  lemma InertExactlyIfUnasked(decls: Decls, v: Value, path: string)
    requires Root(Bare(decls), v).Ok?
    ensures (forall view: View :: Root(Viewed(Bare(decls), path, view), v) == Root(Bare(decls), v))
            <==> path !in PathsAsked(Bare(decls), v)
  {
    if path in PathsAsked(Bare(decls), v) {
      RootHit(decls, v, path);
      assert Root(Viewed(Bare(decls), path, FAILING), v) != Root(Bare(decls), v);
    } else {
      forall view: View ensures Root(Viewed(Bare(decls), path, view), v) == Root(Bare(decls), v) {
        UnaskedIsInert(Bare(decls), v, path, view);
      }
    }
  }
}

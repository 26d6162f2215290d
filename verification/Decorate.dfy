/** Decorating is transparent: adding At views that only hand on what c.Derived() gives them changes
    nothing that is derived, unless one addresses the elements of a list that would have been a table
    (pkg/clifmt/derive.go, options.go). Views already there, of any kind, keep firing where they did. */
module Decorate {
  import opened Base
  import opened Docs
  import opened Derive
  import opened Asked

  /** The same result, or a failure either way: a view in between may pin a failure to its own path. */
  ghost predicate SameOutcome<T>(a: Result<T, Error>, b: Result<T, Error>) {
    (a.Ok? <==> b.Ok?) && (a.Ok? ==> a.value == b.value)
  }

  /** A view whose result does not hang on the wording of a failure below it. */
  ghost predicate Respects(view: View) {
    forall path, caption, value, a, b :: SameOutcome(a, b) ==>
      SameOutcome(view(ViewArg(path, caption, value, a)), view(ViewArg(path, caption, value, b)))
  }

  ghost predicate HandsOn(view: View) {
    forall arg :: view(arg) == arg.derived
  }

  ghost predicate Respectful(d: Deriver) {
    && (forall p | p in d.paths :: Respects(d.paths[p]))
    && (forall t | t in d.callTypes :: Respects(d.callTypes[t]))
    && (forall t | t in d.printerTypes :: Respects(d.printerTypes[t]))
  }

  /** e is d with more path views, each handing on. */
  ghost predicate Decorates(d: Deriver, e: Deriver) {
    && SameTypeViews(d, e)
    && (forall p | p in d.paths :: p in e.paths && e.paths[p] == d.paths[p])
    && (forall p | p in e.paths :: p in d.paths || HandsOn(e.paths[p]))
  }

  /** No list below fv that d shows as a table has its elements addressed by e. */
  ghost predicate Spared(d: Deriver, e: Deriver, fv: Value, path: string)
    decreases fv, 3, 0
  {
    var dv := Deref(fv);
    if Classify(d.decls, dv).ScalarField? then true
    else if dv.List? then SparedList(d, e, dv, path)
    else SparedMembers(d, e, dv, path)
  }

  ghost predicate SparedList(d: Deriver, e: Deriver, dv: Value, path: string)
    requires dv.List?
    decreases dv, 2, 0
  {
    var elemPath := path + "[]";
    if TableShaped(d.decls, dv) && !ElementViews(d, dv, elemPath) then elemPath !in e.paths
    else forall i | 0 <= i < |dv.elems| :: SparedMembers(d, e, Deref(dv.elems[i]), elemPath)
  }

  ghost predicate SparedMembers(d: Deriver, e: Deriver, dv: Value, path: string)
    decreases dv, 1, 0
  {
    var items := Items(d.decls, dv);
    dv.Nil? || items.Err? ||
    forall i | 0 <= i < |items.value| :: Spared(d, e, items.value[i].val, JoinPath(path, items.value[i].name))
  }

  lemma EvalRespects(path: string, caption: string, v: Value, a: R, b: R, layers: seq<View>)
    requires SameOutcome(a, b) && forall i | 0 <= i < |layers| :: Respects(layers[i])
    ensures SameOutcome(Eval(path, caption, v, a, layers), Eval(path, caption, v, b, layers))
    decreases |layers|
  {
    if layers != [] {
      EvalRespects(path, caption, v, a, b, layers[1..]);
      assert Respects(layers[0]);
    }
  }

  lemma LayersRespect(d: Deriver, path: string, v: Value)
    requires Respectful(d)
    ensures forall i | 0 <= i < |Layers(d, path, v)| :: Respects(Layers(d, path, v)[i])
  {
  }

  /** The decorated node has the same layers, or one more on top that hands on. */
  lemma LayersDecorated(d: Deriver, e: Deriver, path: string, v: Value)
    requires Decorates(d, e)
    ensures var before, after := Layers(d, path, v), Layers(e, path, v);
      after == before || (|after| == |before| + 1 && HandsOn(after[0]) && after[1..] == before && path !in d.paths)
  {
  }

  lemma NodeDecorated(d: Deriver, e: Deriver, path: string, caption: string, v: Value, a: R, b: R)
    requires Decorates(d, e) && Respectful(d) && SameOutcome(a, b)
    ensures SameOutcome(Node(d, path, caption, v, a), Node(e, path, caption, v, b))
  {
    LayersDecorated(d, e, path, v);
    LayersRespect(d, path, v);
    EvalRespects(path, caption, v, a, b, Layers(d, path, v));
  }

  lemma InlineField(caption: string, text: string)
    ensures InlineDoc([Field(caption, text)]) == Ok(text)
  {
    var doc := [Field(caption, text)];
    assert doc[..0] == [];
    assert InlineBlocks(doc) == Ok([] + [text]);
    assert [] + [text] == [text];
  }

  /** A handed-on cell is read inline as the text it was. */
  lemma TextHandedOn(path: string, caption: string, v: Value, plain: Result<string, Error>, layers: seq<View>, top: View)
    requires HandsOn(top)
    ensures SameOutcome(TextThrough(path, caption, v, plain, layers), TextThrough(path, caption, v, plain, [top] + layers))
  {
    var base := if plain.Err? then Err(plain.error) else Ok([Field(caption, plain.value)]);
    assert ([top] + layers)[1..] == layers;
    assert SameOutcome(Eval(path, caption, v, base, [top] + layers), Eval(path, caption, v, base, layers));
    if plain.Ok? {
      InlineField(caption, plain.value);
    }
  }

  lemma TextDecorated(d: Deriver, e: Deriver, v: Value, path: string, caption: string)
    requires Decorates(d, e) && Respectful(d)
    ensures SameOutcome(Text(d, v, path, caption), Text(e, v, path, caption))
  {
    LayersDecorated(d, e, path, v);
    var before, after := Layers(d, path, v), Layers(e, path, v);
    if after != before {
      assert after == [after[0]] + before;
      TextHandedOn(path, caption, v, Inline(d.decls, v, false), before, after[0]);
    }
  }

  lemma TextsDecorated(d: Deriver, e: Deriver, vs: seq<Value>, path: string)
    requires Decorates(d, e) && Respectful(d)
    ensures SameOutcome(Texts(d, vs, path), Texts(e, vs, path))
  {
    if vs != [] {
      TextsDecorated(d, e, vs[..|vs| - 1], path);
      TextDecorated(d, e, vs[|vs| - 1], path, "");
    }
  }

  lemma CellsDecorated(d: Deriver, e: Deriver, fields: seq<FieldDecl>, vals: seq<Value>, elemPath: string)
    requires Decorates(d, e) && Respectful(d) && |fields| == |vals|
    ensures SameOutcome(Cells(d, fields, vals, elemPath), Cells(e, fields, vals, elemPath))
  {
    if fields != [] {
      var k := |fields| - 1;
      CellsDecorated(d, e, fields[..k], vals[..k], elemPath);
      TextDecorated(d, e, vals[k], JoinPath(elemPath, fields[k].name), fields[k].caption);
    }
  }

  lemma StructRowsDecorated(d: Deriver, e: Deriver, fields: seq<FieldDecl>, elems: seq<Value>, elemPath: string)
    requires Decorates(d, e) && Respectful(d)
    ensures SameOutcome(StructRows(d, fields, elems, elemPath), StructRows(e, fields, elems, elemPath))
  {
    if elems != [] {
      var k := |elems| - 1;
      StructRowsDecorated(d, e, fields, elems[..k], elemPath);
      var elem := Deref(elems[k]);
      if elem.Struct? && |elem.fields| == |fields| {
        CellsDecorated(d, e, fields, elem.fields, elemPath);
      }
    }
  }

  lemma MapRowDecorated(d: Deriver, e: Deriver, cols: seq<string>, es: seq<Entry>, elemPath: string)
    requires Decorates(d, e) && Respectful(d)
    ensures SameOutcome(MapRow(d, cols, es, elemPath), MapRow(e, cols, es, elemPath))
  {
    if cols != [] {
      var k := |cols| - 1;
      MapRowDecorated(d, e, cols[..k], es, elemPath);
      TextDecorated(d, e, Lookup(es, cols[k]), JoinPath(elemPath, cols[k]), cols[k]);
    }
  }

  lemma MapRowsDecorated(d: Deriver, e: Deriver, cols: seq<string>, elems: seq<Value>, elemPath: string)
    requires Decorates(d, e) && Respectful(d)
    ensures SameOutcome(MapRows(d, cols, elems, elemPath), MapRows(e, cols, elems, elemPath))
  {
    if elems != [] {
      var k := |elems| - 1;
      MapRowsDecorated(d, e, cols, elems[..k], elemPath);
      MapRowDecorated(d, e, cols, EntriesOf(Deref(elems[k])), elemPath);
    }
  }

  lemma MemberDecorated(d: Deriver, e: Deriver, fv: Value, path: string, caption: string)
    requires Decorates(d, e) && Respectful(d) && Spared(d, e, fv, path)
    ensures SameOutcome(Member(d, fv, path, caption), Member(e, fv, path, caption))
    decreases fv, 4, 0
  {
    MemberBaseDecorated(d, e, fv, path, caption);
    NodeDecorated(d, e, path, caption, fv, MemberBase(d, fv, path, caption), MemberBase(e, fv, path, caption));
  }

  lemma MemberBaseDecorated(d: Deriver, e: Deriver, fv: Value, path: string, caption: string)
    requires Decorates(d, e) && Respectful(d) && Spared(d, e, fv, path)
    ensures SameOutcome(MemberBase(d, fv, path, caption), MemberBase(e, fv, path, caption))
    decreases fv, 3, 0
  {
    var dv := Deref(fv);
    if Classify(d.decls, dv).ScalarField? {
      if dv.List? {
        TextsDecorated(d, e, dv.elems, path + "[]");
      }
    } else if dv.List? {
      ListBlocksDecorated(d, e, dv, path, caption);
    } else {
      MembersDecorated(d, e, dv, path);
    }
  }

  lemma MembersDecorated(d: Deriver, e: Deriver, dv: Value, path: string)
    requires Decorates(d, e) && Respectful(d) && SparedMembers(d, e, dv, path)
    ensures SameOutcome(Members(d, dv, path), Members(e, dv, path))
    decreases dv, 1, 0
  {
    var items := Items(d.decls, dv);
    if !dv.Nil? && items.Ok? {
      MembersOfDecorated(d, e, dv, items.value, path);
    }
  }

  lemma OneMoreDecorated(d: Deriver, e: Deriver, parent: Value, items: seq<Item>, path: string)
    requires d.decls == e.decls && items != [] && forall i | 0 <= i < |items| :: items[i].val < parent
    requires var k := |items| - 1; SameOutcome(MembersOf(d, parent, items[..k], path), MembersOf(e, parent, items[..k], path))
    requires var last := items[|items| - 1];
      SameOutcome(Member(d, last.val, JoinPath(path, last.name), last.caption),
                  Member(e, last.val, JoinPath(path, last.name), last.caption))
    ensures SameOutcome(MembersOf(d, parent, items, path), MembersOf(e, parent, items, path))
  {
  }

  lemma MembersOfDecorated(d: Deriver, e: Deriver, parent: Value, items: seq<Item>, path: string)
    requires Decorates(d, e) && Respectful(d)
    requires forall i | 0 <= i < |items| :: items[i].val < parent && Spared(d, e, items[i].val, JoinPath(path, items[i].name))
    ensures SameOutcome(MembersOf(d, parent, items, path), MembersOf(e, parent, items, path))
    decreases parent, 0, |items|
  {
    if items != [] {
      var k := |items| - 1;
      MembersOfDecorated(d, e, parent, items[..k], path);
      MemberDecorated(d, e, items[k].val, JoinPath(path, items[k].name), items[k].caption);
      OneMoreDecorated(d, e, parent, items, path);
    }
  }

  lemma ListBlocksDecorated(d: Deriver, e: Deriver, dv: Value, path: string, title: string)
    requires Decorates(d, e) && Respectful(d) && dv.List? && SparedList(d, e, dv, path)
    ensures SameOutcome(ListBlocks(d, dv, path, title), ListBlocks(e, dv, path, title))
    decreases dv, 2, 0
  {
    var elemPath := path + "[]";
    assert ElementViews(e, dv, elemPath) <==> ElementViews(d, dv, elemPath) || elemPath in e.paths;
    if ElementViews(d, dv, elemPath) {
      ElementRunDecorated(d, e, dv, dv.elems, elemPath);
    } else if IsTableSlice(d.decls, dv) {
      StructRowsDecorated(d, e, FieldsOf(d.decls, DerefType(ElemType(d.decls, dv.typ)).name), dv.elems, elemPath);
    } else if IsMapList(dv) && IsUniform(d.decls, dv) {
      MapRowsDecorated(d, e, Keys(EntriesOf(Deref(dv.elems[0]))), dv.elems, elemPath);
    } else {
      ElementRunDecorated(d, e, dv, dv.elems, elemPath);
    }
  }

  lemma ElementRunDecorated(d: Deriver, e: Deriver, parent: Value, elems: seq<Value>, elemPath: string)
    requires Decorates(d, e) && Respectful(d)
    requires forall i | 0 <= i < |elems| :: elems[i] < parent && SparedMembers(d, e, Deref(elems[i]), elemPath)
    ensures SameOutcome(ElementRun(d, parent, elems, elemPath), ElementRun(e, parent, elems, elemPath))
    decreases parent, 0, |elems|
  {
    if elems != [] {
      var k := |elems| - 1;
      ElementRunDecorated(d, e, parent, elems[..k], elemPath);
      ElementDecorated(d, e, elems[k], k, elemPath);
    }
  }

  lemma ElementDecorated(d: Deriver, e: Deriver, ev: Value, i: nat, elemPath: string)
    requires Decorates(d, e) && Respectful(d) && SparedMembers(d, e, Deref(ev), elemPath)
    ensures SameOutcome(Element(d, ev, i, elemPath), Element(e, ev, i, elemPath))
    decreases ev, 2, 0
  {
    MembersDecorated(d, e, Deref(ev), elemPath);
    var a, b := Members(d, Deref(ev), elemPath), Members(e, Deref(ev), elemPath);
    NodeDecorated(d, e, elemPath, Ordinal(i), ev,
                  if a.Err? then a else Ok([Section(Ordinal(i), a.value)]),
                  if b.Err? then b else Ok([Section(Ordinal(i), b.value)]));
  }

  /** The whole derivation is unchanged: the same document, or a failure in both. */
  lemma DecoratingIsTransparent(d: Deriver, e: Deriver, v: Value)
    requires Decorates(d, e) && Respectful(d) && Spared(d, e, v, "")
    ensures SameOutcome(Root(d, v), Root(e, v))
  {
    var dv := Deref(v);
    if !dv.Nil? {
      if dv.List? && !Classify(d.decls, dv).ScalarField? {
        ListBlocksDecorated(d, e, dv, "", "");
      } else if dv.List? {
        TextsDecorated(d, e, dv.elems, "[]");
      } else if Classify(d.decls, dv).SectionField? {
        MembersDecorated(d, e, dv, "");
      }
    }
    NodeDecorated(d, e, "", "", v, RootBase(d, v), RootBase(e, v));
  }

  // ---- a list's element path -----------------------------------------------------------------------

  /** A view at a path addresses no list whose own path is longer. */
  lemma LongerIsSpared(d: Deriver, handOn: View, p: string, fv: Value, path: string)
    requires |path| >= |p| > 0
    ensures Spared(d, Viewed(d, p, handOn), fv, path)
    decreases fv, 3, 0
  {
    var dv := Deref(fv);
    if !Classify(d.decls, dv).ScalarField? {
      if dv.List? {
        LongerListIsSpared(d, handOn, p, dv, path);
      } else {
        LongerMembersAreSpared(d, handOn, p, dv, path);
      }
    }
  }

  lemma LongerListIsSpared(d: Deriver, handOn: View, p: string, dv: Value, path: string)
    requires dv.List? && |path| >= |p| > 0
    ensures SparedList(d, Viewed(d, p, handOn), dv, path)
    decreases dv, 2, 0
  {
    var elemPath := path + "[]";
    assert |elemPath| > |p|;
    forall i | 0 <= i < |dv.elems| ensures SparedMembers(d, Viewed(d, p, handOn), Deref(dv.elems[i]), elemPath) {
      LongerMembersAreSpared(d, handOn, p, Deref(dv.elems[i]), elemPath);
    }
  }

  lemma LongerMembersAreSpared(d: Deriver, handOn: View, p: string, dv: Value, path: string)
    requires |path| >= |p| > 0
    ensures SparedMembers(d, Viewed(d, p, handOn), dv, path)
    decreases dv, 1, 0
  {
    var items := Items(d.decls, dv);
    if !dv.Nil? && items.Ok? {
      forall i | 0 <= i < |items.value|
        ensures Spared(d, Viewed(d, p, handOn), items.value[i].val, JoinPath(path, items.value[i].name))
      {
        LongerIsSpared(d, handOn, p, items.value[i].val, JoinPath(path, items.value[i].name));
      }
    }
  }

  /** Addressed only by a view that hands on, each element shows as one section. */
  lemma SectionRun(e: Deriver, parent: Value, elems: seq<Value>, elemPath: string, handOn: View)
    requires HandsOn(handOn) && elemPath in e.paths && e.paths[elemPath] == handOn
    requires forall i | 0 <= i < |elems| :: elems[i] < parent
    requires forall i | 0 <= i < |elems| && !Deref(elems[i]).Nil? ::
      TypeOf(Deref(elems[i])) !in e.callTypes && TypeOf(Deref(elems[i])) !in e.printerTypes
    ensures var run := ElementRun(e, parent, elems, elemPath);
      run.Ok? ==> |run.value| == |elems| && forall b | b in run.value :: b.Section?
    decreases |elems|
  {
    if elems != [] {
      var k := |elems| - 1;
      SectionRun(e, parent, elems[..k], elemPath, handOn);
      OneSection(e, elems[k], k, elemPath, handOn);
      SectionsGrow(e, parent, elems, elemPath);
    }
  }

  lemma SectionsGrow(e: Deriver, parent: Value, elems: seq<Value>, elemPath: string)
    requires elems != [] && forall i | 0 <= i < |elems| :: elems[i] < parent
    requires var front := ElementRun(e, parent, elems[..|elems| - 1], elemPath);
      front.Ok? ==> |front.value| == |elems| - 1 && forall b | b in front.value :: b.Section?
    requires var last := Element(e, elems[|elems| - 1], |elems| - 1, elemPath);
      last.Ok? ==> |last.value| == 1 && last.value[0].Section?
    ensures var run := ElementRun(e, parent, elems, elemPath);
      run.Ok? ==> |run.value| == |elems| && forall b | b in run.value :: b.Section?
  {
    RunGrows(e, parent, elems, elemPath);
  }

  lemma RunGrows(e: Deriver, parent: Value, elems: seq<Value>, elemPath: string)
    requires elems != [] && forall i | 0 <= i < |elems| :: elems[i] < parent
    ensures var k := |elems| - 1;
      var front, last := ElementRun(e, parent, elems[..k], elemPath), Element(e, elems[k], k, elemPath);
      ElementRun(e, parent, elems, elemPath)
      == if front.Err? then front else if last.Err? then last else Ok(front.value + last.value)
  {
  }

  lemma OneSection(e: Deriver, ev: Value, i: nat, elemPath: string, handOn: View)
    requires HandsOn(handOn) && elemPath in e.paths && e.paths[elemPath] == handOn
    requires !Deref(ev).Nil? ==> TypeOf(Deref(ev)) !in e.callTypes && TypeOf(Deref(ev)) !in e.printerTypes
    ensures var one := Element(e, ev, i, elemPath); one.Ok? ==> |one.value| == 1 && one.value[0].Section?
  {
    var body := Members(e, Deref(ev), elemPath);
    var base := if body.Err? then body else Ok([Section(Ordinal(i), body.value)]);
    assert Layers(e, elemPath, ev) == [handOn] && [handOn][1..] == [];
    assert Eval(elemPath, Ordinal(i), ev, base, []) == base;
    assert Element(e, ev, i, elemPath) == Eval(elemPath, Ordinal(i), ev, base, [handOn]);
  }

  /** Where a list's elements are rows, a view at their path that hands on changes what is shown. */
  lemma TableIsReplaced(d: Deriver, dv: Value, path: string, title: string, handOn: View)
    requires HandsOn(handOn) && dv.List? && TableShaped(d.decls, dv) && !ElementViews(d, dv, path + "[]")
    requires ListBlocks(d, dv, path, title).Ok?
    ensures !SameOutcome(ListBlocks(d, dv, path, title), ListBlocks(Viewed(d, path + "[]", handOn), dv, path, title))
  {
    var elemPath := path + "[]";
    var e := Viewed(d, elemPath, handOn);
    SectionRun(e, dv, dv.elems, elemPath, handOn);
    assert ElementViews(e, dv, elemPath);
    assert ListBlocks(e, dv, path, title) == ElementBlocks(e, dv, elemPath, title);
    var shown := ListBlocks(d, dv, path, title).value;
    assert |shown| == 1 && shown[0].Table?;
    var run := ElementRun(e, dv, dv.elems, elemPath);
    if run.Ok? && run.value != [] {
      assert run.value[0] in run.value;
    }
  }

  /** Handing on at a list's element path is transparent exactly when its elements are not rows to begin
      with: the list has no table's shape, or a view addresses them already. */
  lemma ElementPathTransparentExactly(d: Deriver, dv: Value, path: string, title: string, handOn: View)
    requires HandsOn(handOn) && Respectful(d) && dv.List? && path + "[]" !in d.paths
    requires ListBlocks(d, dv, path, title).Ok?
    ensures SameOutcome(ListBlocks(d, dv, path, title), ListBlocks(Viewed(d, path + "[]", handOn), dv, path, title))
            <==> !TableShaped(d.decls, dv) || ElementViews(d, dv, path + "[]")
  {
    var elemPath := path + "[]";
    var e := Viewed(d, elemPath, handOn);
    if TableShaped(d.decls, dv) && !ElementViews(d, dv, elemPath) {
      TableIsReplaced(d, dv, path, title, handOn);
    } else {
      forall i | 0 <= i < |dv.elems| ensures SparedMembers(d, e, Deref(dv.elems[i]), elemPath) {
        LongerMembersAreSpared(d, handOn, elemPath, Deref(dv.elems[i]), elemPath);
      }
      ListBlocksDecorated(d, e, dv, path, title);
    }
  }

  // ---- a table and its element path ------------------------------------------------------

  /** A list of one struct with one field. */
  const ROWS := map[
    "Row" := Decl(NoForm, StructKind([FieldDecl("a", "A", "A", true, false, false, false, Named("string"))], false)),
    "Rows" := Decl(NoForm, ListKind(Named("Row"))),
    "string" := Decl(NoForm, ScalarKind)]

  const ROW := Struct("Row", "", [Scalar("string", "x", false)])

  const ONE_ROW := Value.List("Rows", "", [ROW])

  lemma RowCell(d: Deriver)
    requires d == Deriver(ROWS, map[], map[], map[])
    ensures StructRow(d, FieldsOf(ROWS, "Row"), ROW, "[]").Ok?
  {
    var fields := FieldsOf(ROWS, "Row");
    assert Layers(d, JoinPath("[]", "a"), ROW.fields[0]) == [];
    assert fields[..0] == [] && ROW.fields[..0] == [];
    assert Cells(d, fields[..0], ROW.fields[..0], "[]") == Ok([]);
  }

  lemma RowsAreTable(d: Deriver)
    requires d == Deriver(ROWS, map[], map[], map[])
    ensures Root(d, ONE_ROW).Ok? && |Root(d, ONE_ROW).value| == 1 && Root(d, ONE_ROW).value[0].Table?
  {
    RowCell(d);
    var fields := FieldsOf(ROWS, "Row");
    assert ONE_ROW.elems[..0] == [];
    assert StructRows(d, fields, ONE_ROW.elems[..0], "[]") == Ok([]);
    assert "" + "[]" == "[]";
    assert Layers(d, "", ONE_ROW) == [];
    assert !ElementViews(d, ONE_ROW, "[]");
    assert Root(d, ONE_ROW) == StructTable(d, ONE_ROW, "[]", "");
  }

  lemma ViewedRowsAreSections(e: Deriver, handOn: View)
    requires HandsOn(handOn) && e == Deriver(ROWS, map["[]" := handOn], map[], map[])
    ensures Root(e, ONE_ROW).Ok? ==> Root(e, ONE_ROW).value != [] && Root(e, ONE_ROW).value[0].Section?
  {
    assert "" + "[]" == "[]";
    assert Layers(e, "", ONE_ROW) == [];
    assert ElementViews(e, ONE_ROW, "[]");
    assert IsTableSlice(ROWS, ONE_ROW) && Deref(ONE_ROW) == ONE_ROW;
    assert RootBase(e, ONE_ROW) == ListBlocks(e, ONE_ROW, "", "");
    assert ListBlocks(e, ONE_ROW, "", "") == ElementBlocks(e, ONE_ROW, "[]", "");
    assert Root(e, ONE_ROW) == ElementRun(e, ONE_ROW, ONE_ROW.elems, "[]");
    assert ONE_ROW.elems[..0] == [];
    assert ElementRun(e, ONE_ROW, ONE_ROW.elems[..0], "[]") == Ok([]);
    assert Layers(e, "[]", ROW) == [handOn];
    assert [handOn][1..] == [];
    var body := Members(e, Deref(ROW), "[]");
    var base := if body.Err? then body else Ok([Section(Ordinal(0), body.value)]);
    assert Eval("[]", Ordinal(0), ROW, base, []) == base;
    var one := Element(e, ROW, 0, "[]");
    assert one == Eval("[]", Ordinal(0), ROW, base, [handOn]);
    assert one.Ok? ==> one.value[0].Section?;
    assert one.Ok? ==> [] + one.value == one.value;
  }

  /** Handing on at "[]" is not transparent: a view of the elements turns their table into sections. */
  lemma ElementPathsAreNotTransparent(d: Deriver, handOn: View)
    requires HandsOn(handOn) && d == Deriver(ROWS, map[], map[], map[])
    ensures !SameOutcome(Root(d, ONE_ROW), Root(d.(paths := map["[]" := handOn]), ONE_ROW))
  {
    RowsAreTable(d);
    ViewedRowsAreSections(d.(paths := map["[]" := handOn]), handOn);
  }

  // ---- a view that watches errors ---------------------------------------------------------------------

  /** A map to structs whose tags are malformed. */
  const BAD := map["Env" := Decl(NoForm, MapKind(Named("Bad"))), "Bad" := Decl(NoForm, StructKind([], true))]

  const ONE_BAD := GoMap("Env", "", [Entry("k", Struct("Bad", "", []))])

  /** Tells apart failures that came through a view and failures that did not. */
  function Watch(arg: ViewArg): R {
    Ok([Para(if arg.derived.Err? && arg.derived.error.view.Some? then "through a view" else "through none")])
  }

  lemma BadMember(d: Deriver)
    requires d.decls == BAD && d.callTypes == map[] && d.printerTypes == map[]
    requires "k" in d.paths ==> HandsOn(d.paths["k"])
    ensures Member(d, Struct("Bad", "", []), "k", "k") == Err(Error(if "k" in d.paths then Some("k") else None, BadTag))
  {
    var v := Struct("Bad", "", []);
    var base: R := Err(Error(None, BadTag));
    assert MemberBase(d, v, "k", "k") == base;
    if "k" in d.paths {
      var layers := [d.paths["k"]];
      assert Layers(d, "k", v) == layers && layers[1..] == [];
      assert Eval("k", "k", v, base, layers[1..]) == base;
      assert layers[0](ViewArg("k", "k", v, base)) == base;
      assert Eval("k", "k", v, base, layers) == Err(Pin("k", base.error));
    } else {
      assert Layers(d, "k", v) == [];
    }
  }

  lemma BadRoot(d: Deriver)
    requires d.decls == BAD && d.callTypes == map[] && d.printerTypes == map[]
    requires "" in d.paths && d.paths[""] == Watch && ("k" in d.paths ==> HandsOn(d.paths["k"]))
    ensures Root(d, ONE_BAD) == Ok([Para(if "k" in d.paths then "through a view" else "through none")])
  {
    var items := [Item("k", "k", Struct("Bad", "", []))];
    assert ItemsOfEntries(EntriesOf(ONE_BAD)) == items;
    assert items[..0] == [];
    assert MembersOf(d, ONE_BAD, items[..0], "") == Ok(Buckets([], [], []));
    BadMember(d);
    var base := RootBase(d, ONE_BAD);
    assert JoinPath("", "k") == "k";
    assert MembersOf(d, ONE_BAD, items, "") == Err(Error(if "k" in d.paths then Some("k") else None, BadTag));
    assert base == Members(d, ONE_BAD, "");
    var layers := [d.paths[""]];
    assert Layers(d, "", ONE_BAD) == layers && layers[1..] == [];
    assert Eval("", "", ONE_BAD, base, layers[1..]) == base;
    assert layers[0](ViewArg("", "", ONE_BAD, base)) == Watch(ViewArg("", "", ONE_BAD, base));
  }

  /** A view in between pins a failure to its own path, so a view above that looks into the failures it
      is handed can tell that it is there. */
  lemma ErrorWatchersAreNotTransparent(handOn: View)
    requires HandsOn(handOn)
    ensures var d := Deriver(BAD, map["" := Watch], map[], map[]);
      && Decorates(d, Viewed(d, "k", handOn)) && Spared(d, Viewed(d, "k", handOn), ONE_BAD, "")
      && Root(d, ONE_BAD).Ok? && Root(Viewed(d, "k", handOn), ONE_BAD).Ok?
      && !SameOutcome(Root(d, ONE_BAD), Root(Viewed(d, "k", handOn), ONE_BAD))
  {
    var d := Deriver(BAD, map["" := Watch], map[], map[]);
    BadRoot(d);
    BadRoot(Viewed(d, "k", handOn));
    BadIsSpared(d, Viewed(d, "k", handOn));
  }

  lemma BadIsSpared(d: Deriver, e: Deriver)
    requires d.decls == BAD
    ensures Spared(d, e, ONE_BAD, "")
  {
    var items := ItemsOfEntries(EntriesOf(ONE_BAD));
    assert items == [Item("k", "k", Struct("Bad", "", []))];
    assert SparedMembers(d, e, items[0].val, JoinPath("", "k"));
    assert Spared(d, e, items[0].val, JoinPath("", "k"));
  }
}

/** What the derived view of a value says (pkg/clifmt/derive.go, reflectmodel.go, tags.go), kind by kind,
    where no custom view is in the way, and how a view's own document is taken where there is one.

    Every statement is about the document that comes out; none names the functions that take the walk's
    decisions. */
module Shows {
  import opened Base
  import opened Docs
  import opened Derive
  import Maps
  import Walk

  /** No view addresses the node: none at its path, and none of its value's type. */
  ghost predicate Unviewed(d: Deriver, v: Value, path: string) {
    path !in d.paths && (Deref(v).Nil? || (TypeOf(Deref(v)) !in d.callTypes && TypeOf(Deref(v)) !in d.printerTypes))
  }

  /** A node that a view at its path alone addresses. */
  lemma ViewedNode(d: Deriver, path: string, caption: string, v: Value, base: R, view: View)
    requires path in d.paths && d.paths[path] == view && Unviewed(d.(paths := map[]), v, path)
    ensures var shown := view(ViewArg(path, caption, Deref(v), base));
      && Layers(d, path, v) == [view]
      && Node(d, path, caption, v, base) ==
           if shown.Ok? then shown
           else Err(Error(if shown.error.view.Some? then shown.error.view else Some(path), shown.error.cause))
  {
    assert Layers(d, path, v) == [view];
    assert [view][1..] == [];
    assert Eval(path, caption, v, base, [view][1..]) == base;
  }

  lemma UnviewedNode(d: Deriver, path: string, caption: string, v: Value, base: R)
    requires Unviewed(d, v, path)
    ensures Node(d, path, caption, v, base) == base
  {
    assert Layers(d, path, v) == [];
  }

  /** Pointers and interfaces are followed to what they hold. */
  lemma Followed(v: Value)
    ensures Deref(Pointer(v)) == Deref(v) && forall t :: Deref(Interface(t, v)) == Deref(v)
    ensures !v.Pointer? && !v.Interface? ==> Deref(v) == v
  {
  }

  /** How the type of dv, as it is declared, says a value of it renders. */
  ghost predicate DeclaredForm(decls: Decls, dv: Value, form: Form) {
    (dv.Scalar? || dv.Struct? || dv.List? || dv.GoMap?) && dv.typ in decls && decls[dv.typ].form == form
  }

  /** A value that is one text to the walk: nil, a plain scalar, or of a type with a String method. */
  ghost predicate OneText(decls: Decls, dv: Value) {
    dv.Nil? || dv.Scalar? || DeclaredForm(decls, dv, Stringer)
  }

  ghost predicate HasTextForm(decls: Decls, dv: Value) {
    DeclaredForm(decls, dv, Stringer) || DeclaredForm(decls, dv, ErrorForm)
  }

  /** The text of a value as it stands: nothing for nil. */
  ghost function OwnText(dv: Value): string
    requires !dv.Pointer? && !dv.Interface?
  {
    if dv.Nil? then "" else dv.text
  }

  lemma OwnTextIs(v: Value)
    ensures ScalarString(v) == OwnText(Deref(v))
  {
  }

  /** A struct or map with members to show. */
  ghost predicate HasParts(decls: Decls, dv: Value) {
    (dv.Struct? || dv.GoMap? || dv.Ordered?) && !DeclaredForm(decls, dv, Stringer)
  }

  /** A list that is one text for all its elements. */
  ghost predicate PlainList(decls: Decls, dv: Value) {
    dv.List? && !DeclaredForm(decls, dv, Stringer) && !IsTableSlice(decls, dv) && !IsMapList(dv)
  }

  /** The elements of a list are structs with no String method, or a list of maps. */
  ghost predicate ListOfParts(decls: Decls, dv: Value) {
    dv.List? && !DeclaredForm(decls, dv, Stringer) && (IsTableSlice(decls, dv) || IsMapList(dv))
  }

  lemma KindsAre(decls: Decls, dv: Value)
    requires !dv.Pointer? && !dv.Interface?
    ensures Classify(decls, dv) ==
              if OneText(decls, dv) || PlainList(decls, dv) then ScalarField
              else if HasParts(decls, dv) then SectionField
              else if IsTableSlice(decls, dv) || IsUniform(decls, dv) then TableField else SectionField
    ensures HasStringForm(decls, dv) <==> HasTextForm(decls, dv)
    ensures OneText(decls, dv) || PlainList(decls, dv) || HasParts(decls, dv) || ListOfParts(decls, dv)
  {
  }

  // ---- a member -----------------------------------------------------------------------------------------

  /** A member that is one text is one field: its caption, and the text. */
  lemma TextMember(d: Deriver, fv: Value, path: string, caption: string)
    requires Unviewed(d, fv, path) && OneText(d.decls, Deref(fv))
    ensures Member(d, fv, path, caption) == Ok([Field(caption, OwnText(Deref(fv)))])
  {
    KindsAre(d.decls, Deref(fv));
    UnviewedNode(d, path, caption, fv, MemberBase(d, fv, path, caption));
  }

  /** A plain list is one field: its caption, and its elements' texts joined, unless its type has a text of
      its own. */
  lemma ListMember(d: Deriver, fv: Value, path: string, caption: string, texts: seq<string>)
    requires Unviewed(d, fv, path) && PlainList(d.decls, Deref(fv))
    requires var es := Deref(fv).elems;
      |texts| == |es| && forall i | 0 <= i < |es| :: Text(d, es[i], path + "[]", "") == Ok(texts[i])
    ensures Member(d, fv, path, caption) ==
            Ok([Field(caption, if HasTextForm(d.decls, Deref(fv)) then OwnText(Deref(fv)) else Join(", ", texts))])
  {
    KindsAre(d.decls, Deref(fv));
    Walk.TextsHold(d, Deref(fv).elems, path + "[]", texts);
    UnviewedNode(d, path, caption, fv, MemberBase(d, fv, path, caption));
  }

  /** A struct or map is one section under its caption, its members in it, or their failure. */
  lemma PartsMember(d: Deriver, fv: Value, path: string, caption: string)
    requires Unviewed(d, fv, path) && HasParts(d.decls, Deref(fv))
    ensures var body := Members(d, Deref(fv), path);
      Member(d, fv, path, caption) == if body.Err? then body else Ok([Section(caption, body.value)])
  {
    KindsAre(d.decls, Deref(fv));
    UnviewedNode(d, path, caption, fv, MemberBase(d, fv, path, caption));
  }

  /** A lone paragraph in a member's place is the member's value. */
  ghost function InPlace(shown: R, caption: string): R {
    if shown.Ok? && |shown.value| == 1 && shown.value[0].Para? then Ok([Field(caption, shown.value[0].text)]) else shown
  }

  /** A list of structs or maps is what ListShows says, titled by its caption. */
  lemma TableMember(d: Deriver, fv: Value, path: string, caption: string)
    requires Unviewed(d, fv, path) && ListOfParts(d.decls, Deref(fv))
    ensures Member(d, fv, path, caption) == InPlace(ListBlocks(d, Deref(fv), path, caption), caption)
  {
    KindsAre(d.decls, Deref(fv));
    UnviewedNode(d, path, caption, fv, ListBlocks(d, Deref(fv), path, caption));
  }

  /** Where a view stands at a member's path and no other applies, the member is what it returns, its lone
      paragraph under the member's caption; a failure that no view below has been named for is its own. */
  lemma ViewedMember(d: Deriver, fv: Value, path: string, caption: string, view: View)
    requires path in d.paths && d.paths[path] == view && Unviewed(d.(paths := map[]), fv, path)
    ensures var shown := view(ViewArg(path, caption, Deref(fv), MemberBase(d, fv, path, caption)));
      Member(d, fv, path, caption) ==
        if shown.Ok? then InPlace(shown, caption)
        else Err(Error(if shown.error.view.Some? then shown.error.view else Some(path), shown.error.cause))
  {
    ViewedNode(d, path, caption, fv, MemberBase(d, fv, path, caption), view);
  }

  // ---- which lists are tables ---------------------------------------------------------------------------

  /** t is e behind n pointers. */
  ghost predicate PointsTo(t: Type, n: nat, e: Type) {
    if n == 0 then t == e else t.PointerTo? && PointsTo(t.elem, n - 1, e)
  }

  lemma {:induction false} PointersEnd(t: Type) returns (n: nat)
    ensures PointsTo(t, n, DerefType(t))
  {
    n := 0;
    if t.PointerTo? {
      n := PointersEnd(t.elem);
      n := n + 1;
    }
  }

  lemma {:induction false} EndIsOne(t: Type, n: nat, e: Type)
    requires !e.PointerTo? && PointsTo(t, n, e)
    ensures DerefType(t) == e
  {
    if n > 0 {
      EndIsOne(t.elem, n - 1, e);
    }
  }

  ghost predicate PlainStruct(decls: Decls, name: string) {
    name in decls && decls[name].kind.StructKind? && !decls[name].form.Stringer?
  }

  /** A list is one of structs by its declaration: its element type is a struct type with no String method,
      or so many pointers to one. */
  lemma TableSliceExactly(decls: Decls, dv: Value)
    requires dv.List?
    ensures IsTableSlice(decls, dv) <==>
              dv.typ in decls && decls[dv.typ].kind.ListKind?
              && exists n: nat, name :: PointsTo(decls[dv.typ].kind.elem, n, Named(name)) && PlainStruct(decls, name)
  {
    if dv.typ in decls && decls[dv.typ].kind.ListKind? {
      var t := decls[dv.typ].kind.elem;
      if n: nat, name :| PointsTo(t, n, Named(name)) && PlainStruct(decls, name) {
        EndIsOne(t, n, Named(name));
      }
      if IsTableSlice(decls, dv) {
        var name := DerefType(t).name;
        var n := PointersEnd(t);
        assert PointsTo(t, n, Named(name)) && PlainStruct(decls, name);
        assert exists n: nat, name :: PointsTo(t, n, Named(name)) && PlainStruct(decls, name);
      }
    }
  }

  /** The entries of a map value. */
  ghost predicate HoldsEntries(v: Value, es: seq<Entry>) {
    (Deref(v).GoMap? || Deref(v).Ordered?) && Deref(v).entries == es
  }

  /** A list is one of maps when it has elements and each of them is one; its maps fit one table when they
      all have the same keys and every value is one text. */
  lemma MapListExactly(decls: Decls, dv: Value, maps: seq<seq<Entry>>)
    requires dv.List? && |maps| == |dv.elems|
    requires forall i | 0 <= i < |maps| :: HoldsEntries(dv.elems[i], maps[i]) && Maps.DistinctKeys(maps[i])
    ensures IsMapList(dv) <==> maps != []
    ensures maps != [] ==>
      (IsUniform(decls, dv) <==>
         forall i | 0 <= i < |maps| ::
           Maps.KeySet(maps[i]) == Maps.KeySet(maps[0]) && forall j | 0 <= j < |maps[i]| :: CellIsText(decls, maps[i][j].val))
  {
    if maps != [] {
      forall i | 0 <= i < |maps|
        ensures EntriesOf(Deref(dv.elems[i])) == maps[i]
        ensures SameKeys(maps[0], maps[i]) <==> Maps.KeySet(maps[i]) == Maps.KeySet(maps[0])
      {
        Maps.SameKeysBothWays(maps[0], maps[i]);
      }
      CellsAreTexts(decls, maps);
    }
  }

  ghost predicate CellIsText(decls: Decls, v: Value) {
    OneText(decls, Deref(v)) || HasTextForm(decls, Deref(v))
  }

  lemma CellsAreTexts(decls: Decls, maps: seq<seq<Entry>>)
    ensures forall i | 0 <= i < |maps| ::
              AllScalar(decls, maps[i]) <==> forall j | 0 <= j < |maps[i]| :: CellIsText(decls, maps[i][j].val)
  {
    forall v ensures IsScalarValue(decls, Deref(v)) <==> CellIsText(decls, v) {
      KindsAre(decls, Deref(v));
    }
  }

  /** A list with an element that is no map is no list of maps. */
  lemma NotAllMaps(dv: Value, i: nat)
    requires dv.List? && i < |dv.elems| && !(Deref(dv.elems[i]).GoMap? || Deref(dv.elems[i]).Ordered?)
    ensures !IsMapList(dv)
  {
  }

  // ---- a list of structs or maps ------------------------------------------------------------------------

  /** Some value there is of a type that a view addresses. */
  ghost predicate HoldsViewed(d: Deriver, vs: seq<Value>) {
    exists i | 0 <= i < |vs| ::
      !Deref(vs[i]).Nil? && (TypeOf(Deref(vs[i])) in d.callTypes || TypeOf(Deref(vs[i])) in d.printerTypes)
  }

  lemma ElementViewsExactly(d: Deriver, dv: Value, elemPath: string)
    requires dv.List?
    ensures ElementViews(d, dv, elemPath) <==> elemPath in d.paths || HoldsViewed(d, dv.elems)
  {
  }

  /** Elements that a view addresses, by path or by type, or that fit no table are shown one after the other,
      in a section if there is a title; other lists are one table under the title. */
  lemma ListShows(d: Deriver, dv: Value, path: string, title: string)
    requires ListOfParts(d.decls, dv)
    ensures var shown, run := ListBlocks(d, dv, path, title), ElementRun(d, dv, dv.elems, path + "[]");
      if path + "[]" in d.paths || HoldsViewed(d, dv.elems) || (!IsTableSlice(d.decls, dv) && !IsUniform(d.decls, dv))
      then shown == if run.Err? || title == "" then run else Ok([Section(title, run.value)])
      else shown.Ok? ==> |shown.value| == 1 && shown.value[0].Table? && shown.value[0].title == title
  {
    ElementViewsExactly(d, dv, path + "[]");
  }

  /** A table of a badly tagged type is refused. */
  lemma BadTable(d: Deriver, dv: Value, path: string, title: string, n: nat, name: string)
    requires dv.List? && dv.typ in d.decls && d.decls[dv.typ].kind.ListKind?
    requires PointsTo(d.decls[dv.typ].kind.elem, n, Named(name)) && PlainStruct(d.decls, name)
    requires path + "[]" !in d.paths && !HoldsViewed(d, dv.elems)
    ensures d.decls[name].kind.badTag ==> ListBlocks(d, dv, path, title) == Err(Error(None, BadTag))
  {
    EndIsOne(d.decls[dv.typ].kind.elem, n, Named(name));
  }

  /** An element by itself is a section called by its number, counting from one; nil has nothing in it. */
  lemma ElementShows(d: Deriver, ev: Value, i: nat, elemPath: string)
    requires Unviewed(d, ev, elemPath)
    ensures var body := Members(d, Deref(ev), elemPath);
      && Element(d, ev, i, elemPath) == (if body.Err? then body else Ok([Section("[" + Decimal(i + 1) + "]", body.value)]))
      && (Deref(ev).Nil? ==> body == Ok([]))
  {
    var body := Members(d, Deref(ev), elemPath);
    UnviewedNode(d, elemPath, Ordinal(i), ev, if body.Err? then body else Ok([Section(Ordinal(i), body.value)]));
  }

  /** Where a view stands at the elements' path, it is handed that section under the element's number. */
  lemma ViewedElement(d: Deriver, ev: Value, i: nat, elemPath: string, view: View)
    requires elemPath in d.paths && d.paths[elemPath] == view && Unviewed(d.(paths := map[]), ev, elemPath)
    ensures var body, number := Members(d, Deref(ev), elemPath), "[" + Decimal(i + 1) + "]";
      var shown := view(ViewArg(elemPath, number, Deref(ev), if body.Err? then body else Ok([Section(number, body.value)])));
      Element(d, ev, i, elemPath) ==
        if shown.Ok? then shown
        else Err(Error(if shown.error.view.Some? then shown.error.view else Some(elemPath), shown.error.cause))
  {
    var body := Members(d, Deref(ev), elemPath);
    ViewedNode(d, elemPath, Ordinal(i), ev, if body.Err? then body else Ok([Section(Ordinal(i), body.value)]), view);
  }

  // ---- what the members are -----------------------------------------------------------------------------

  /** What omitempty leaves out: nil, a zero scalar, a list or map with nothing in it. */
  ghost predicate Empty(v: Value) {
    v.Nil? || (v.Scalar? && v.zero) || (v.List? && v.elems == []) || (v.GoMap? && v.entries == [])
  }

  /** A field is shown when json sees it and it is not hidden, unless it is omitempty and empty. */
  ghost predicate IsShown(f: FieldDecl, v: Value) {
    f.exported && !f.skip && !f.hide && !(f.omitEmpty && Empty(v))
  }

  ghost function ShownOf(f: FieldDecl, v: Value): seq<Item> {
    if IsShown(f, v) then [Item(f.name, f.caption, v)] else []
  }

  /** A struct's members are its shown fields in order, each with its name, caption and value. */
  lemma {:induction false} FieldsShown(fields: seq<FieldDecl>, vals: seq<Value>)
    requires |fields| == |vals|
    ensures ItemsOfFields(fields, vals)
         == Flatten(seq(|fields|, i requires 0 <= i < |fields| => ShownOf(fields[i], vals[i])))
  {
    var parts := seq(|fields|, i requires 0 <= i < |fields| => ShownOf(fields[i], vals[i]));
    if fields != [] {
      var k := |fields| - 1;
      var front := seq(k, i requires 0 <= i < k => ShownOf(fields[..k][i], vals[..k][i]));
      FieldsShown(fields[..k], vals[..k]);
      assert parts == front + [ShownOf(fields[k], vals[k])];
      Walk.FlattenAppend(front, ShownOf(fields[k], vals[k]));
    }
  }

  /** The members of a struct are its shown fields, unless its type is badly tagged; those of a map are its
      entries under their keys. */
  lemma ItemsShown(decls: Decls, dv: Value)
    ensures dv.Struct? && dv.typ in decls && decls[dv.typ].kind.StructKind? && |decls[dv.typ].kind.fields| == |dv.fields| ==>
      Items(decls, dv) == if decls[dv.typ].kind.badTag then Err(Error(None, BadTag))
                          else Ok(ItemsOfFields(decls[dv.typ].kind.fields, dv.fields))
    ensures dv.GoMap? || dv.Ordered? ==>
      Items(decls, dv) == Ok(seq(|dv.entries|, i requires 0 <= i < |dv.entries| =>
                                   Item(dv.entries[i].key, dv.entries[i].key, dv.entries[i].val)))
  {
    if dv.GoMap? || dv.Ordered? {
      assert ItemsOfEntries(EntriesOf(dv)) == seq(|dv.entries|, i requires 0 <= i < |dv.entries| =>
                                                    Item(dv.entries[i].key, dv.entries[i].key, dv.entries[i].val));
    }
  }

  /** All members of a kind together: texts first, then sections, then tables, each kind in member order. */
  lemma MembersShown(
    d: Deriver, dv: Value, path: string, items: seq<Item>, kinds: seq<FieldKind>, results: seq<R>, docs: seq<Doc>)
    requires !dv.Nil? && Items(d.decls, dv) == Ok(items) && Walk.Shown(d, items, path, kinds, results)
    requires |docs| == |items| && forall j | 0 <= j < |items| :: results[j] == Ok(docs[j])
    ensures Members(d, dv, path) == Ok(Walk.OfKind(kinds, docs, ScalarField)
                                       + Walk.OfKind(kinds, docs, SectionField)
                                       + Walk.OfKind(kinds, docs, TableField))
  {
    Walk.MembersInOrder(d, dv, items, path, kinds, results, docs);
  }

  // ---- one line -----------------------------------------------------------------------------------------

  /** A text read on one line is itself, however deep. */
  lemma TextInline(decls: Decls, v: Value, nested: bool)
    requires var dv := Deref(v); dv.Nil? || dv.Scalar? || HasTextForm(decls, dv)
    ensures Inline(decls, v, nested) == Ok(OwnText(Deref(v)))
  {
    KindsAre(decls, Deref(v));
  }

  ghost function NamedParts(items: seq<Item>, texts: seq<string>): (parts: seq<string>)
    requires |items| == |texts|
  {
    seq(|items|, i requires 0 <= i < |items| => items[i].name + "=" + texts[i])
  }

  lemma {:induction false} PartsInline(decls: Decls, parent: Value, items: seq<Item>, texts: seq<string>)
    requires |items| == |texts| && forall i | 0 <= i < |items| :: items[i].val < parent
    requires forall i | 0 <= i < |items| :: Inline(decls, items[i].val, true) == Ok(texts[i])
    ensures InlineItems(decls, parent, items) == Ok(NamedParts(items, texts))
    decreases |items|
  {
    if items != [] {
      var k := |items| - 1;
      PartsInline(decls, parent, items[..k], texts[..k]);
      assert Inline(decls, items[k].val, true) == Ok(texts[k]);
      assert NamedParts(items, texts) == NamedParts(items[..k], texts[..k]) + [items[k].name + "=" + texts[k]];
    }
  }

  /** A struct or map on one line: its members as name=text, joined, braced when it is inside another. */
  lemma MembersInline(decls: Decls, v: Value, nested: bool, items: seq<Item>, texts: seq<string>)
    requires var dv := Deref(v);
      (dv.Struct? || dv.GoMap? || dv.Ordered?) && !HasTextForm(decls, dv) && Items(decls, dv) == Ok(items)
    requires |items| == |texts| && forall i | 0 <= i < |items| :: Inline(decls, items[i].val, true) == Ok(texts[i])
    ensures var line := Join(", ", NamedParts(items, texts));
      Inline(decls, v, nested) == Ok(if nested then "{" + line + "}" else line)
  {
    KindsAre(decls, Deref(v));
    PartsInline(decls, Deref(v), items, texts);
  }

  lemma OneMoreInline(decls: Decls, parent: Value, elems: seq<Value>, front: seq<string>, last: string)
    requires elems != [] && forall i | 0 <= i < |elems| :: elems[i] < parent
    requires InlineElems(decls, parent, elems[..|elems| - 1]) == Ok(front)
    requires Inline(decls, elems[|elems| - 1], true) == Ok(last)
    ensures InlineElems(decls, parent, elems) == Ok(front + [last])
  {
  }

  lemma {:induction false} ElementsInlineParts(decls: Decls, parent: Value, elems: seq<Value>, texts: seq<string>)
    requires |elems| == |texts| && forall i | 0 <= i < |elems| :: elems[i] < parent
    requires forall i | 0 <= i < |elems| :: Inline(decls, elems[i], true) == Ok(texts[i])
    ensures InlineElems(decls, parent, elems) == Ok(texts)
    decreases |elems|
  {
    if elems != [] {
      var k := |elems| - 1;
      ElementsInlineParts(decls, parent, elems[..k], texts[..k]);
      OneMoreInline(decls, parent, elems, texts[..k], texts[k]);
      assert texts == texts[..k] + [texts[k]];
    }
  }

  /** A list on one line: its elements' texts joined, bracketed when it is inside another value. */
  lemma ElementsInline(decls: Decls, v: Value, nested: bool, texts: seq<string>)
    requires Deref(v).List? && !HasTextForm(decls, Deref(v)) && |texts| == |Deref(v).elems|
    requires forall i | 0 <= i < |texts| :: Inline(decls, Deref(v).elems[i], true) == Ok(texts[i])
    ensures var line := Join(", ", texts);
      Inline(decls, v, nested) == Ok(if nested then "[" + line + "]" else line)
  {
    KindsAre(decls, Deref(v));
    ElementsInlineParts(decls, Deref(v), Deref(v).elems, texts);
  }

  /** A cell or an item that no view addresses is its value on one line. */
  lemma CellShows(d: Deriver, v: Value, path: string, caption: string)
    requires Unviewed(d, v, path)
    ensures Text(d, v, path, caption) == Inline(d.decls, v, false)
  {
    assert Layers(d, path, v) == [];
  }

  /** A cell that one view addresses: the view is handed a field of the cell's caption and plain text, and
      what it returns is read on one line. */
  lemma CellViewed(d: Deriver, v: Value, path: string, caption: string, view: View, plain: string)
    requires path in d.paths && d.paths[path] == view && Unviewed(d.(paths := map[]), v, path)
    requires Inline(d.decls, v, false) == Ok(plain)
    ensures var shown := view(ViewArg(path, caption, Deref(v), Ok([Field(caption, plain)])));
      Text(d, v, path, caption) ==
        if shown.Ok? then InlineDoc(shown.value)
        else Err(Error(if shown.error.view.Some? then shown.error.view else Some(path), shown.error.cause))
  {
    ViewedNode(d, path, caption, v, Ok([Field(caption, plain)]), view);
  }

  /** A block read on one line: a paragraph's text, a field's value, a list's items joined. */
  ghost predicate ReadsAs(b: Block, text: string) {
    match b
    case Para(t) => text == t
    case Field(_, value) => text == value
    case List(_, items) => text == Join(", ", items)
    case _ => false
  }

  lemma {:induction false} BlocksInline(doc: Doc, texts: seq<string>)
    requires |doc| == |texts| && forall i | 0 <= i < |doc| :: ReadsAs(doc[i], texts[i])
    ensures InlineBlocks(doc) == Ok(texts)
  {
    if doc != [] {
      var k := |doc| - 1;
      BlocksInline(doc[..k], texts[..k]);
      assert ReadsAs(doc[k], texts[k]);
      assert texts == texts[..k] + [texts[k]];
    }
  }

  /** A document of such blocks is their texts joined. */
  lemma DocInline(doc: Doc, texts: seq<string>)
    requires |doc| == |texts| && forall i | 0 <= i < |doc| :: ReadsAs(doc[i], texts[i])
    ensures InlineDoc(doc) == Ok(Join(", ", texts))
  {
    BlocksInline(doc, texts);
  }

  // ---- the whole value ----------------------------------------------------------------------------------

  /** Nothing at all is "(nil)"; a value that is one text is a paragraph of it; a struct or map its members,
      untitled; a plain list its items, if any; a list of structs or maps what ListShows says, untitled. */
  lemma RootShows(d: Deriver, v: Value, texts: seq<string>)
    requires Unviewed(d, v, "")
    ensures var dv := Deref(v);
      && (dv.Nil? ==> Root(d, v) == Ok([Para("(nil)")]))
      && (!dv.Nil? && !dv.List? && OneText(d.decls, dv) ==> Root(d, v) == Ok([Para(OwnText(dv))]))
      && (HasParts(d.decls, dv) ==> Root(d, v) == Members(d, dv, ""))
      && (ListOfParts(d.decls, dv) ==> Root(d, v) == ListBlocks(d, dv, "", ""))
      && (dv.List? && !ListOfParts(d.decls, dv)
          && |texts| == |dv.elems| && (forall i | 0 <= i < |dv.elems| :: Text(d, dv.elems[i], "[]", "") == Ok(texts[i])) ==>
            Root(d, v) == Ok(if texts == [] then [] else [Block.List("", texts)]))
  {
    var dv := Deref(v);
    KindsAre(d.decls, dv);
    UnviewedNode(d, "", "", v, RootBase(d, v));
    if dv.List? && !ListOfParts(d.decls, dv)
       && |texts| == |dv.elems| && (forall i | 0 <= i < |dv.elems| :: Text(d, dv.elems[i], "[]", "") == Ok(texts[i])) {
      Walk.TextsHold(d, dv.elems, "[]", texts);
    }
  }

  /** Where a view stands at the root and no other applies, the document is what it returns, and it is handed
      what would have been shown, under no path and no caption. */
  lemma ViewedRoot(d: Deriver, v: Value, view: View)
    requires "" in d.paths && d.paths[""] == view && Unviewed(d.(paths := map[]), v, "")
    ensures var shown := view(ViewArg("", "", Deref(v), RootBase(d, v)));
      Root(d, v) ==
        if shown.Ok? then shown
        else Err(Error(if shown.error.view.Some? then shown.error.view else Some(""), shown.error.cause))
  {
    ViewedNode(d, "", "", v, RootBase(d, v), view);
  }
}

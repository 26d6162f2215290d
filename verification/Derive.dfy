/** The walk that derives a value's human view (pkg/clifmt/derive.go, options.go, map.go,
    reflectmodel.go): every node is offered to the custom views that address it, most specific first,
    before its own derivation.

    Two promises are proved of the whole walk, for every value, set of views and nesting, each with its
    exact condition: decorating with views that only hand on what they are given changes no document; and
    a path view that the static path check (module Paths) rejects could not have fired. */
module Derive {
  import opened Base
  import opened Docs

  // ---- types and values ---------------------------------------------------------------------------

  /** A Go type: a named one (declared below), a pointer, an interface, or clifmt.Map. */
  datatype Type = Named(name: string) | PointerTo(elem: Type) | AnyType | OrderedMap

  /** Whether a type renders whole: through fmt.Stringer, or through error. */
  datatype Form = NoForm | Stringer | ErrorForm

  datatype FieldDecl = FieldDecl(
    name: string, caption: string, col: string,
    exported: bool, skip: bool, hide: bool, omitEmpty: bool, typ: Type)

  /** badTag: some field carries a malformed clifmt tag, which fails the type. */
  datatype Kind = ScalarKind | StructKind(fields: seq<FieldDecl>, badTag: bool) | ListKind(elem: Type) | MapKind(elem: Type)

  datatype Decl = Decl(form: Form, kind: Kind)

  type Decls = map<string, Decl>

  datatype Entry = Entry(key: string, val: Value)

  /** A finite Go value. text is what scalarString writes of it; a map's entries are in render order. */
  datatype Value =
    | Nil
    | Pointer(target: Value)
    | Interface(dynamic: Type, target: Value)
    | Scalar(typ: string, text: string, zero: bool)
    | Struct(typ: string, text: string, fields: seq<Value>)
    | List(typ: string, text: string, elems: seq<Value>)
    | GoMap(typ: string, text: string, entries: seq<Entry>)
    | Ordered(text: string, entries: seq<Entry>)

  /** v with its pointers and interfaces removed; Nil when one of them is nil. */
  function Deref(v: Value): (r: Value)
    ensures r == v || r < v
    ensures !r.Pointer? && !r.Interface?
  {
    match v
    case Pointer(t) => Deref(t)
    case Interface(_, t) => Deref(t)
    case _ => v
  }

  function DerefType(t: Type): (r: Type)
    ensures !r.PointerTo?
  {
    if t.PointerTo? then DerefType(t.elem) else t
  }

  function TypeOf(dv: Value): Type
    requires !dv.Nil? && !dv.Pointer? && !dv.Interface?
  {
    if dv.Ordered? then OrderedMap else Named(dv.typ)
  }

  function FormOf(decls: Decls, dv: Value): Form {
    match dv
    case Scalar(t, _, _) => if t in decls then decls[t].form else NoForm
    case Struct(t, _, _) => if t in decls then decls[t].form else NoForm
    case List(t, _, _) => if t in decls then decls[t].form else NoForm
    case GoMap(t, _, _) => if t in decls then decls[t].form else NoForm
    case _ => NoForm
  }

  predicate HasStringForm(decls: Decls, dv: Value) { !FormOf(decls, dv).NoForm? }

  predicate IsMapLike(dv: Value) { dv.GoMap? || dv.Ordered? }

  predicate IsScalarValue(decls: Decls, dv: Value) {
    dv.Nil? || HasStringForm(decls, dv) || dv.Scalar?
  }

  function ScalarString(v: Value): string {
    match Deref(v)
    case Scalar(_, text, _) => text
    case Struct(_, text, _) => text
    case List(_, text, _) => text
    case GoMap(_, text, _) => text
    case Ordered(text, _) => text
    case _ => ""
  }

  /** What omitempty hides. */
  predicate IsEmptyValue(v: Value) {
    match v
    case Nil => true
    case Scalar(_, _, zero) => zero
    case List(_, _, es) => es == []
    case GoMap(_, _, es) => es == []
    case _ => false
  }

  // ---- members --------------------------------------------------------------------------------------

  /** A named part of a struct or map. */
  datatype Item = Item(name: string, caption: string, val: Value)

  predicate Visible(f: FieldDecl) { f.exported && !f.skip && !f.hide }

  datatype Cause = BadTag | NotInline | OfView(id: int)

  /** A failure, and the node of the custom view it came through, if any. */
  datatype Error = Error(view: Option<string>, cause: Cause)

  type R = Result<Doc, Error>

  function ItemsOfFields(decls: seq<FieldDecl>, fields: seq<Value>): (r: seq<Item>)
    requires |decls| == |fields|
    ensures forall i | 0 <= i < |r| :: r[i].val in fields
  {
    if fields == [] then []
    else
      var k := |fields| - 1;
      ItemsOfFields(decls[..k], fields[..k])
      + if Visible(decls[k]) && !(decls[k].omitEmpty && IsEmptyValue(fields[k]))
        then [Item(decls[k].name, decls[k].caption, fields[k])] else []
  }

  function ItemsOfEntries(entries: seq<Entry>): (r: seq<Item>)
    ensures |r| == |entries|
    ensures forall i | 0 <= i < |r| :: r[i] == Item(entries[i].key, entries[i].key, entries[i].val)
  {
    seq(|entries|, i requires 0 <= i < |entries| => Item(entries[i].key, entries[i].key, entries[i].val))
  }

  function EntriesOf(dv: Value): (es: seq<Entry>)
    ensures forall i | 0 <= i < |es| :: es[i].val < dv
  {
    match dv
    case GoMap(_, _, es) => es
    case Ordered(_, es) => es
    case _ => []
  }

  function FieldsOf(decls: Decls, typ: string): seq<FieldDecl> {
    if typ in decls && decls[typ].kind.StructKind? then decls[typ].kind.fields else []
  }

  predicate BadlyTagged(decls: Decls, typ: string) {
    typ in decls && decls[typ].kind.StructKind? && decls[typ].kind.badTag
  }

  /** The members of a struct that the human views show, or a map's entries. */
  function Items(decls: Decls, dv: Value): (r: Result<seq<Item>, Error>)
    ensures r.Ok? ==> forall i | 0 <= i < |r.value| :: r.value[i].val < dv
  {
    match dv
    case Struct(t, _, fs) =>
      if BadlyTagged(decls, t) then Err(Error(None, BadTag))
      else if |FieldsOf(decls, t)| != |fs| then Ok([])
      else Ok(ItemsOfFields(FieldsOf(decls, t), fs))
    case _ => Ok(ItemsOfEntries(EntriesOf(dv)))
  }

  // ---- classification -------------------------------------------------------------------------------

  function ElemType(decls: Decls, typ: string): Type {
    if typ in decls && decls[typ].kind.ListKind? then decls[typ].kind.elem else AnyType
  }

  /** A list whose elements are structs with no string form of the Stringer kind. */
  predicate IsTableSlice(decls: Decls, dv: Value) {
    dv.List? &&
    var e := DerefType(ElemType(decls, dv.typ));
    e.Named? && e.name in decls && decls[e.name].kind.StructKind? && !decls[e.name].form.Stringer?
  }

  predicate AllScalar(decls: Decls, es: seq<Entry>) {
    forall i | 0 <= i < |es| :: IsScalarValue(decls, Deref(es[i].val))
  }

  predicate SameKeys(a: seq<Entry>, b: seq<Entry>) {
    |a| == |b| && forall i | 0 <= i < |b| :: exists j :: 0 <= j < |a| && a[j].key == b[i].key
  }

  /** A map with these entries can be a row below first's keys. */
  predicate FitsRow(decls: Decls, first: seq<Entry>, es: seq<Entry>) {
    SameKeys(first, es) && AllScalar(decls, es)
  }

  /** A non-empty list of maps. */
  predicate IsMapList(dv: Value) {
    dv.List? && dv.elems != [] && forall i | 0 <= i < |dv.elems| :: IsMapLike(Deref(dv.elems[i]))
  }

  /** Every element has the first one's keys and holds only scalars. */
  predicate IsUniform(decls: Decls, dv: Value)
    requires IsMapList(dv)
  {
    var first := EntriesOf(Deref(dv.elems[0]));
    forall i | 0 <= i < |dv.elems| :: FitsRow(decls, first, EntriesOf(Deref(dv.elems[i])))
  }

  datatype FieldKind = ScalarField | SectionField | TableField

  function Classify(decls: Decls, dv: Value): FieldKind {
    if dv.Nil? || FormOf(decls, dv).Stringer? then ScalarField
    else if IsMapLike(dv) || dv.Struct? then SectionField
    else if !dv.List? then ScalarField
    else if IsTableSlice(decls, dv) then TableField
    else if IsMapList(dv) then if IsUniform(decls, dv) then TableField else SectionField
    else ScalarField
  }

  // ---- inline text ----------------------------------------------------------------------------------

  /** v on one line; it consults no view. */
  function Inline(decls: Decls, v: Value, nested: bool): Result<string, Error>
    decreases v, 1, 0
  {
    var dv := Deref(v);
    if IsScalarValue(decls, dv) then Ok(ScalarString(dv))
    else if IsMapLike(dv) || dv.Struct? then
      match Items(decls, dv)
      case Err(e) => Err(e)
      case Ok(items) =>
        var parts := InlineItems(decls, dv, items);
        if parts.Err? then Err(parts.error) else Ok(Brace("{", "}", parts.value, nested))
    else if dv.List? then
      var parts := InlineElems(decls, dv, dv.elems);
      if parts.Err? then Err(parts.error) else Ok(Brace("[", "]", parts.value, nested))
    else Ok("")
  }

  function Brace(open: string, close: string, parts: seq<string>, nested: bool): string {
    if nested then open + Join(", ", parts) + close else Join(", ", parts)
  }

  function InlineItems(decls: Decls, parent: Value, items: seq<Item>): Result<seq<string>, Error>
    requires forall i | 0 <= i < |items| :: items[i].val < parent
    decreases parent, 0, |items|
  {
    if items == [] then Ok([])
    else
      var k := |items| - 1;
      var front := InlineItems(decls, parent, items[..k]);
      if front.Err? then front
      else
        var last := Inline(decls, items[k].val, true);
        if last.Err? then Err(last.error) else Ok(front.value + [items[k].name + "=" + last.value])
  }

  function InlineElems(decls: Decls, parent: Value, elems: seq<Value>): Result<seq<string>, Error>
    requires forall i | 0 <= i < |elems| :: elems[i] < parent
    decreases parent, 0, |elems|
  {
    if elems == [] then Ok([])
    else
      var k := |elems| - 1;
      var front := InlineElems(decls, parent, elems[..k]);
      if front.Err? then front
      else
        var last := Inline(decls, elems[k], true);
        if last.Err? then Err(last.error) else Ok(front.value + [last.value])
  }

  // ---- custom views ---------------------------------------------------------------------------------

  /** What a view is given: its node, and the node's view from the next lower layer. */
  datatype ViewArg = ViewArg(path: string, caption: string, value: Value, derived: R)

  type View = ViewArg -> R

  /** The views of one call: by path and type, and the Printer's by type. */
  datatype Deriver = Deriver(
    decls: Decls, paths: map<string, View>, callTypes: map<Type, View>, printerTypes: map<Type, View>)

  function JoinPath(parent: string, name: string): string {
    if parent == "" then name else parent + "." + name
  }

  /** The views that apply to v at path, most specific first. */
  function Layers(d: Deriver, path: string, v: Value): seq<View> {
    var dv := Deref(v);
    (if path in d.paths then [d.paths[path]] else [])
    + if dv.Nil? then []
      else
        (if TypeOf(dv) in d.callTypes then [d.callTypes[TypeOf(dv)]] else [])
        + (if TypeOf(dv) in d.printerTypes then [d.printerTypes[TypeOf(dv)]] else [])
  }

  /** An error is pinned to the innermost view it came through. */
  function Pin(path: string, e: Error): Error {
    if e.view.Some? then e else e.(view := Some(path))
  }

  /** The top layer run over the node, handed the rest as its derived view; with none left, base. */
  function Eval(path: string, caption: string, v: Value, base: R, layers: seq<View>): R {
    if layers == [] then base
    else
      match layers[0](ViewArg(path, caption, Deref(v), Eval(path, caption, v, base, layers[1..])))
      case Ok(doc) => Ok(doc)
      case Err(e) => Err(Pin(path, e))
  }

  function Node(d: Deriver, path: string, caption: string, v: Value, base: R): R {
    Eval(path, caption, v, base, Layers(d, path, v))
  }

  /** A view's document read as one line of text. */
  function InlineDoc(doc: Doc): Result<string, Error> {
    var parts := InlineBlocks(doc);
    if parts.Err? then Err(parts.error) else Ok(Join(", ", parts.value))
  }

  function InlineBlocks(doc: Doc): Result<seq<string>, Error> {
    if doc == [] then Ok([])
    else
      var k := |doc| - 1;
      var front := InlineBlocks(doc[..k]);
      if front.Err? then front
      else
        match doc[k]
        case Para(text) => Ok(front.value + [text])
        case Field(_, value) => Ok(front.value + [value])
        case List(_, items) => Ok(front.value + [Join(", ", items)])
        case _ => Err(Error(None, NotInline))
  }

  /** A node that renders as one string: a table cell, a list item. */
  function Text(d: Deriver, v: Value, path: string, caption: string): Result<string, Error> {
    TextThrough(path, caption, v, Inline(d.decls, v, false), Layers(d, path, v))
  }

  function TextThrough(path: string, caption: string, v: Value, plain: Result<string, Error>, layers: seq<View>)
    : Result<string, Error>
  {
    if layers == [] then plain
    else
      var base := if plain.Err? then Err(plain.error) else Ok([Field(caption, plain.value)]);
      match Eval(path, caption, v, base, layers)
      case Err(e) => Err(e)
      case Ok(doc) => InlineDoc(doc)
  }

  function Texts(d: Deriver, vs: seq<Value>, path: string): (r: Result<seq<string>, Error>)
    ensures r.Ok? ==> |r.value| == |vs|
  {
    if vs == [] then Ok([])
    else
      var k := |vs| - 1;
      var front := Texts(d, vs[..k], path);
      if front.Err? then front
      else
        var last := Text(d, vs[k], path, "");
        if last.Err? then Err(last.error) else Ok(front.value + [last.value])
  }

  // ---- the walk -------------------------------------------------------------------------------------

  /** A view's lone Para in a member's place is the member's value: it keeps the label. */
  function LabelLonePara(doc: Doc, caption: string): Doc {
    if |doc| == 1 && doc[0].Para? then [Field(caption, doc[0].text)] else doc
  }

  function ScalarValue(d: Deriver, fv: Value, path: string): Result<string, Error> {
    var dv := Deref(fv);
    if !dv.List? || HasStringForm(d.decls, dv) then Ok(ScalarString(fv))
    else
      var parts := Texts(d, dv.elems, path + "[]");
      if parts.Err? then Err(parts.error) else Ok(Join(", ", parts.value))
  }

  /** Scalar lines, then sections, then tables, each in member order. */
  datatype Buckets = Buckets(scalars: Doc, sections: Doc, tables: Doc) {
    function Add(kind: FieldKind, doc: Doc): Buckets {
      match kind
      case ScalarField => this.(scalars := scalars + doc)
      case SectionField => this.(sections := sections + doc)
      case TableField => this.(tables := tables + doc)
    }

    function All(): Doc { scalars + sections + tables }
  }

  function Member(d: Deriver, fv: Value, path: string, caption: string): R
    decreases fv, 4, 0
  {
    var doc := Node(d, path, caption, fv, MemberBase(d, fv, path, caption));
    if doc.Err? then doc else Ok(LabelLonePara(doc.value, caption))
  }

  /** A member's own derivation: a Field line, a titled list, or a Section. */
  function MemberBase(d: Deriver, fv: Value, path: string, caption: string): R
    decreases fv, 3, 0
  {
    var dv := Deref(fv);
    if Classify(d.decls, dv).ScalarField? then
      var s := ScalarValue(d, fv, path);
      if s.Err? then Err(s.error) else Ok([Field(caption, s.value)])
    else if dv.List? then ListBlocks(d, dv, path, caption)
    else
      var body := Members(d, dv, path);
      if body.Err? then body else Ok([Section(caption, body.value)])
  }

  function Members(d: Deriver, dv: Value, path: string): R
    decreases dv, 1, 0
  {
    if dv.Nil? then Ok([])
    else
      match Items(d.decls, dv)
      case Err(e) => Err(e)
      case Ok(items) =>
        var b := MembersOf(d, dv, items, path);
        if b.Err? then Err(b.error) else Ok(b.value.All())
  }

  function MembersOf(d: Deriver, parent: Value, items: seq<Item>, path: string): Result<Buckets, Error>
    requires forall i | 0 <= i < |items| :: items[i].val < parent
    decreases parent, 0, |items|
  {
    if items == [] then Ok(Buckets([], [], []))
    else
      var k := |items| - 1;
      var front := MembersOf(d, parent, items[..k], path);
      if front.Err? then front
      else
        var doc := Member(d, items[k].val, JoinPath(path, items[k].name), items[k].caption);
        if doc.Err? then Err(doc.error)
        else Ok(front.value.Add(Classify(d.decls, Deref(items[k].val)), doc.value))
  }

  predicate ElementViews(d: Deriver, dv: Value, elemPath: string)
    requires dv.List?
  {
    elemPath in d.paths ||
    exists i :: 0 <= i < |dv.elems| &&
      var ev := Deref(dv.elems[i]); !ev.Nil? && (TypeOf(ev) in d.callTypes || TypeOf(ev) in d.printerTypes)
  }

  /** A list of structs or maps: a Table when its elements fit one row shape and no view addresses
      them, else one block run per element. */
  function ListBlocks(d: Deriver, dv: Value, path: string, title: string): R
    requires dv.List?
    decreases dv, 2, 0
  {
    var elemPath := path + "[]";
    if ElementViews(d, dv, elemPath) then ElementBlocks(d, dv, elemPath, title)
    else if IsTableSlice(d.decls, dv) then StructTable(d, dv, elemPath, title)
    else if IsMapList(dv) && IsUniform(d.decls, dv) then MapTable(d, dv, elemPath, title)
    else ElementBlocks(d, dv, elemPath, title)
  }

  /** One row per element and one cell per visible field of the element type. */
  function StructTable(d: Deriver, dv: Value, elemPath: string, title: string): (r: R)
    requires IsTableSlice(d.decls, dv)
    ensures r.Ok? ==> |r.value| == 1 && r.value[0].Table? && |r.value[0].rows| == |dv.elems|
                      && forall i | 0 <= i < |dv.elems| :: |r.value[0].rows[i]| == |r.value[0].columns|
  {
    var typ := DerefType(ElemType(d.decls, dv.typ)).name;
    if BadlyTagged(d.decls, typ) then Err(Error(None, BadTag))
    else
      var fields := FieldsOf(d.decls, typ);
      var rows := StructRows(d, fields, dv.elems, elemPath);
      if rows.Err? then Err(rows.error)
      else Ok([Table(title, Columns(fields), rows.value)])
  }

  function Columns(fields: seq<FieldDecl>): seq<string> {
    if fields == [] then []
    else
      var k := |fields| - 1;
      Columns(fields[..k]) + if Visible(fields[k]) then [fields[k].col] else []
  }

  function StructRows(d: Deriver, fields: seq<FieldDecl>, elems: seq<Value>, elemPath: string)
    : (r: Result<seq<seq<string>>, Error>)
    ensures r.Ok? ==> |r.value| == |elems| && forall i | 0 <= i < |elems| :: |r.value[i]| == |Columns(fields)|
  {
    if elems == [] then Ok([])
    else
      var k := |elems| - 1;
      var front := StructRows(d, fields, elems[..k], elemPath);
      if front.Err? then front
      else
        var last := StructRow(d, fields, Deref(elems[k]), elemPath);
        if last.Err? then Err(last.error) else Ok(front.value + [last.value])
  }

  /** A nil element keeps its row, empty. */
  function StructRow(d: Deriver, fields: seq<FieldDecl>, elem: Value, elemPath: string): (r: Result<seq<string>, Error>)
    ensures r.Ok? ==> |r.value| == |Columns(fields)|
  {
    if elem.Struct? && |elem.fields| == |fields| then Cells(d, fields, elem.fields, elemPath)
    else Ok(seq(|Columns(fields)|, i => ""))
  }

  function Cells(d: Deriver, fields: seq<FieldDecl>, vals: seq<Value>, elemPath: string): (r: Result<seq<string>, Error>)
    requires |fields| == |vals|
    ensures r.Ok? ==> |r.value| == |Columns(fields)|
  {
    if fields == [] then Ok([])
    else
      var k := |fields| - 1;
      var front := Cells(d, fields[..k], vals[..k], elemPath);
      if front.Err? || !Visible(fields[k]) then front
      else
        var last := Text(d, vals[k], JoinPath(elemPath, fields[k].name), fields[k].caption);
        if last.Err? then Err(last.error) else Ok(front.value + [last.value])
  }

  function Keys(es: seq<Entry>): seq<string> {
    seq(|es|, i requires 0 <= i < |es| => es[i].key)
  }

  /** The value at key; Nil when there is none. */
  function Lookup(es: seq<Entry>, key: string): Value {
    if es == [] then Nil
    else if es[|es| - 1].key == key then es[|es| - 1].val
    else Lookup(es[..|es| - 1], key)
  }

  /** One row per element and one cell per key of the first. */
  function MapTable(d: Deriver, dv: Value, elemPath: string, title: string): (r: R)
    requires IsMapList(dv)
    ensures r.Ok? ==> |r.value| == 1 && r.value[0].Table? && |r.value[0].rows| == |dv.elems|
                      && forall i | 0 <= i < |dv.elems| :: |r.value[0].rows[i]| == |r.value[0].columns|
  {
    var cols := Keys(EntriesOf(Deref(dv.elems[0])));
    var rows := MapRows(d, cols, dv.elems, elemPath);
    if rows.Err? then Err(rows.error) else Ok([Table(title, cols, rows.value)])
  }

  function MapRows(d: Deriver, cols: seq<string>, elems: seq<Value>, elemPath: string): (r: Result<seq<seq<string>>, Error>)
    ensures r.Ok? ==> |r.value| == |elems| && forall i | 0 <= i < |elems| :: |r.value[i]| == |cols|
  {
    if elems == [] then Ok([])
    else
      var k := |elems| - 1;
      var front := MapRows(d, cols, elems[..k], elemPath);
      if front.Err? then front
      else
        var last := MapRow(d, cols, EntriesOf(Deref(elems[k])), elemPath);
        if last.Err? then Err(last.error) else Ok(front.value + [last.value])
  }

  function MapRow(d: Deriver, cols: seq<string>, es: seq<Entry>, elemPath: string): (r: Result<seq<string>, Error>)
    ensures r.Ok? ==> |r.value| == |cols|
  {
    if cols == [] then Ok([])
    else
      var k := |cols| - 1;
      var front := MapRow(d, cols[..k], es, elemPath);
      if front.Err? then front
      else
        var last := Text(d, Lookup(es, cols[k]), JoinPath(elemPath, cols[k]), cols[k]);
        if last.Err? then Err(last.error) else Ok(front.value + [last.value])
  }

  /** "[n]", counting from 1. */
  function Ordinal(i: nat): string { "[" + Decimal(i + 1) + "]" }

  function ElementBlocks(d: Deriver, dv: Value, elemPath: string, title: string): R
    requires dv.List?
    decreases dv, 1, 0
  {
    var run := ElementRun(d, dv, dv.elems, elemPath);
    if run.Err? || title == "" then run else Ok([Section(title, run.value)])
  }

  function ElementRun(d: Deriver, parent: Value, elems: seq<Value>, elemPath: string): R
    requires forall i | 0 <= i < |elems| :: elems[i] < parent
    decreases parent, 0, |elems|
  {
    if elems == [] then Ok([])
    else
      var k := |elems| - 1;
      var front := ElementRun(d, parent, elems[..k], elemPath);
      if front.Err? then front
      else
        var last := Element(d, elems[k], k, elemPath);
        if last.Err? then last else Ok(front.value + last.value)
  }

  /** Element i as its own node, derived as a Section titled by its ordinal. */
  function Element(d: Deriver, ev: Value, i: nat, elemPath: string): R
    decreases ev, 2, 0
  {
    var body := Members(d, Deref(ev), elemPath);
    var base := if body.Err? then body else Ok([Section(Ordinal(i), body.value)]);
    Node(d, elemPath, Ordinal(i), ev, base)
  }

  /** The whole value: the root node. */
  function Root(d: Deriver, v: Value): R {
    Node(d, "", "", v, RootBase(d, v))
  }

  function RootBase(d: Deriver, v: Value): R {
    var dv := Deref(v);
    var kind := Classify(d.decls, dv);
    if dv.Nil? then Ok([Para("(nil)")])
    else if dv.List? && !kind.ScalarField? then ListBlocks(d, dv, "", "")
    else if dv.List? then
      var items := Texts(d, dv.elems, "[]");
      if items.Err? then Err(items.error)
      else if items.value == [] then Ok([])
      else Ok([Block.List("", items.value)])
    else if kind.SectionField? then Members(d, dv, "")
    else Ok([Para(ScalarString(dv))])
  }
}

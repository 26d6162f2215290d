/** The static check of At paths (pkg/clifmt/path.go): a path that names nothing in the rendered
    value's type is refused before anything is derived.

    The check and the walk of module Derive are written separately and should agree: a path the check
    refuses should not have been able to change what is derived. For any value they do exactly when the
    check accepts every path the walk asks for, which well-formed names ensure and others may not. */
module Paths {
  import opened Base
  import opened Docs
  import opened Derive
  import opened Asked

  // ---- splitting a path -----------------------------------------------------------------------------

  /** A path segment that is a name: what a well-formed field name or map key looks like. */
  predicate GoodName(s: string) {
    s != "" && '.' !in s && '[' !in s && ']' !in s
  }

  predicate GoodSegment(s: string) { s == "[]" || GoodName(s) }

  predicate EndsInBrackets(s: string) {
    |s| >= 2 && s[|s| - 2..] == "[]"
  }

  /** part without its trailing "[]"s, and how many there were. */
  function Peel(part: string): (string, nat) {
    if EndsInBrackets(part) then
      var (name, n) := Peel(part[..|part| - 2]);
      (name, n + 1)
    else (part, 0)
  }

  function Brackets(n: nat): (segs: seq<string>)
    ensures |segs| == n
  {
    seq(n, i => "[]")
  }

  /** The segments of one dotted part, or None when it is malformed. */
  function PartSegments(part: string, first: bool): Option<seq<string>> {
    var (name, n) := Peel(part);
    if '[' in name || ']' in name || (name == "" && (!first || n == 0)) then None
    else Some((if name != "" then [name] else []) + Brackets(n))
  }

  function Segments(parts: seq<string>): Option<seq<string>> {
    if parts == [] then Some([])
    else
      var k := |parts| - 1;
      var front, last := Segments(parts[..k]), PartSegments(parts[k], k == 0);
      if front.Some? && last.Some? then Some(front.value + last.value) else None
  }

  function Split(path: string): Option<seq<string>> { Segments(SplitOn('.', path)) }

  lemma {:induction false} SegmentsRefusal(parts: seq<string>, i: nat)
    requires i <= |parts| && Segments(parts[..i]).None?
    ensures Segments(parts).None?
    decreases |parts|
  {
    if i < |parts| {
      assert parts[..|parts| - 1][..i] == parts[..i];
      SegmentsRefusal(parts[..|parts| - 1], i);
    } else {
      assert parts[..i] == parts;
    }
  }

  /** The splitter's inner loop: the trailing "[]"s of one part trimmed off and counted. */
  method TrimBrackets(part: string) returns (name: string, n: nat)
    ensures (name, n) == Peel(part)
  {
    name, n := part, 0;
    while EndsInBrackets(name)
      invariant Peel(part) == (Peel(name).0, Peel(name).1 + n)
      decreases |name|
    {
      name := name[..|name| - 2];
      n := n + 1;
    }
  }

  /** The splitter's loop body: what one part adds. */
  method SplitPart(part: string, first: bool) returns (segs: Option<seq<string>>)
    ensures segs == PartSegments(part, first)
  {
    var name, n := TrimBrackets(part);
    if '[' in name || ']' in name || (name == "" && (!first || n == 0)) {
      return None;
    }
    var found := if name != "" then [name] else [];
    for j := 0 to n
      invariant found == (if name != "" then [name] else []) + Brackets(j)
    {
      BracketsAppend(j);
      found := found + ["[]"];
    }
    return Some(found);
  }

  /** The splitter as it runs: part by part. */
  method SplitPath(path: string) returns (segs: Option<seq<string>>)
    ensures segs == Split(path)
  {
    var parts := SplitOn('.', path);
    var found: seq<string> := [];
    for i := 0 to |parts|
      invariant Segments(parts[..i]) == Some(found)
    {
      var more := SplitPart(parts[i], i == 0);
      assert parts[..i + 1][..i] == parts[..i];
      if more.None? {
        SegmentsRefusal(parts, i + 1);
        return None;
      }
      found := found + more.value;
    }
    assert parts[..|parts|] == parts;
    return Some(found);
  }

  // ---- building a path ------------------------------------------------------------------------------

  /** One level below q, as the walk spells it. */
  function Below(q: string, seg: string): string {
    if seg == "[]" then q + "[]" else JoinPath(q, seg)
  }

  function Extend(q: string, segs: seq<string>): string
    decreases |segs|
  {
    if segs == [] then q else Extend(Below(q, segs[0]), segs[1..])
  }

  lemma {:induction false} ExtendAppend(q: string, segs: seq<string>, seg: string)
    ensures Extend(q, segs + [seg]) == Below(Extend(q, segs), seg)
    decreases |segs|
  {
    if segs == [] {
      assert [seg][1..] == [];
      assert Extend(Below(q, seg), []) == Below(q, seg);
    } else {
      assert (segs + [seg])[1..] == segs[1..] + [seg];
      ExtendAppend(Below(q, segs[0]), segs[1..], seg);
    }
  }

  ghost predicate GoodSegments(segs: seq<string>) {
    forall i | 0 <= i < |segs| :: GoodSegment(segs[i])
  }

  /** The dotted parts of the path through segs. */
  function Parts(segs: seq<string>): seq<string> {
    if segs == [] then []
    else
      var front, last := Parts(segs[..|segs| - 1]), segs[|segs| - 1];
      if last != "[]" then front + [last]
      else if front == [] then ["[]"]
      else front[..|front| - 1] + [front[|front| - 1] + "[]"]
  }

  lemma {:induction false} JoinLast(parts: seq<string>, last: string)
    ensures parts != [] ==> Join(".", parts + [last]) == Join(".", parts) + "." + last
  {
    if parts != [] {
      assert (parts + [last])[1..] == parts[1..] + [last];
      JoinLast(parts[1..], last);
      if |parts| > 1 {
        var tail := Join(".", parts[1..]);
        assert parts[0] + "." + (tail + "." + last) == (parts[0] + "." + tail) + "." + last;
      }
    }
  }

  lemma {:induction false} JoinGrown(parts: seq<string>, more: string)
    requires parts != []
    ensures Join(".", parts[..|parts| - 1] + [parts[|parts| - 1] + more]) == Join(".", parts) + more
  {
    if |parts| > 1 {
      var grown, tail := parts[..|parts| - 1] + [parts[|parts| - 1] + more], parts[1..];
      assert grown[1..] == tail[..|tail| - 1] + [tail[|tail| - 1] + more];
      JoinGrown(tail, more);
      assert parts[0] + "." + (Join(".", tail) + more) == (parts[0] + "." + Join(".", tail)) + more;
    }
  }

  /** What is known of the parts of a path through good segments. */
  ghost predicate GoodParts(segs: seq<string>, parts: seq<string>) {
    && (parts == [] <==> segs == [])
    && (forall i | 0 <= i < |parts| :: parts[i] != "" && '.' !in parts[i])
    && Join(".", parts) == Extend("", segs)
    && Segments(parts) == Some(segs)
  }

  lemma PeelBrackets(part: string)
    ensures Peel(part + "[]") == (Peel(part).0, Peel(part).1 + 1)
  {
    var grown := part + "[]";
    assert grown[|grown| - 2..] == "[]" && grown[..|grown| - 2] == part;
  }

  lemma PeelName(name: string)
    requires ']' !in name
    ensures Peel(name) == (name, 0)
  {
    if |name| >= 2 {
      assert name[|name| - 1] in name;
      assert name[|name| - 2..][1] == name[|name| - 1];
    }
  }

  lemma BracketsAppend(n: nat)
    ensures Brackets(n) + ["[]"] == Brackets(n + 1)
  {
  }

  lemma PartGrows(part: string, first: bool)
    requires PartSegments(part, first).Some?
    ensures PartSegments(part + "[]", first) == Some(PartSegments(part, first).value + ["[]"])
  {
    PeelBrackets(part);
    var (name, n) := Peel(part);
    BracketsAppend(n);
    var front := if name != "" then [name] else [];
    assert (front + Brackets(n)) + ["[]"] == front + (Brackets(n) + ["[]"]);
  }

  lemma NameIsSegment(name: string, first: bool)
    requires GoodName(name)
    ensures PartSegments(name, first) == Some([name])
  {
    PeelName(name);
    assert Brackets(0) == [] && [name] + [] == [name];
  }

  lemma SegmentsAppend(front: seq<string>, before: seq<string>, name: string)
    requires Segments(before) == Some(front) && GoodName(name)
    ensures Segments(before + [name]) == Some(front + [name])
  {
    NameIsSegment(name, before == []);
    assert (before + [name])[..|before|] == before;
  }

  lemma ExtendJoined(front: seq<string>, before: seq<string>, name: string)
    requires GoodParts(front, before) && GoodName(name)
    ensures Join(".", before + [name]) == Extend("", front + [name])
  {
    ExtendAppend("", front, name);
    NameIsNoBrackets(name);
    JoinLast(before, name);
    if before != [] {
      JoinNotEmpty(before);
    }
  }

  lemma AppendName(front: seq<string>, before: seq<string>, name: string)
    requires GoodParts(front, before) && GoodName(name)
    ensures GoodParts(front + [name], before + [name])
  {
    SegmentsAppend(front, before, name);
    ExtendJoined(front, before, name);
  }

  lemma JoinNotEmpty(parts: seq<string>)
    requires parts != [] && parts[0] != ""
    ensures Join(".", parts) != ""
  {
  }

  lemma AppendBrackets(front: seq<string>, before: seq<string>)
    requires GoodParts(front, before) && before != []
    ensures GoodParts(front + ["[]"], before[..|before| - 1] + [before[|before| - 1] + "[]"])
  {
    var k := |before| - 1;
    var parts := before[..k] + [before[k] + "[]"];
    assert parts[..k] == before[..k];
    ExtendAppend("", front, "[]");
    PartGrows(before[k], k == 0);
    JoinGrown(before, "[]");
    var older, last := Segments(before[..k]).value, PartSegments(before[k], k == 0).value;
    assert older + (last + ["[]"]) == (older + last) + ["[]"] == front + ["[]"];
    assert Segments(parts) == Some(front + ["[]"]);
  }

  lemma StartBrackets()
    ensures GoodParts(["[]"], ["[]"])
  {
    ExtendAppend("", [], "[]");
    assert [] + ["[]"] == ["[]"];
    assert ["[]"][..0] == [];
    PeelBrackets("");
    assert "" + "[]" == "[]";
    assert Brackets(1) == ["[]"];
  }

  lemma {:induction false} PartsOfSegments(segs: seq<string>)
    requires GoodSegments(segs)
    ensures GoodParts(segs, Parts(segs))
  {
    if segs != [] {
      var front, last := segs[..|segs| - 1], segs[|segs| - 1];
      PartsOfSegments(front);
      assert segs == front + [last];
      assert GoodSegment(last);
      if last != "[]" {
        AppendName(front, Parts(front), last);
      } else if Parts(front) == [] {
        StartBrackets();
      } else {
        AppendBrackets(front, Parts(front));
      }
    }
  }

  /** Splitting a path gives back the segments the walk built it from. */
  lemma SplitInvertsBuild(segs: seq<string>)
    requires segs != [] && GoodSegments(segs)
    ensures Extend("", segs) != "" && Split(Extend("", segs)) == Some(segs)
  {
    PartsOfSegments(segs);
    var parts := Parts(segs);
    forall p | p in parts ensures '.' !in p {
      var i :| 0 <= i < |parts| && parts[i] == p;
    }
    SplitJoin('.', parts);
    assert parts[0] != "";
    if |parts| > 1 {
      assert Join(".", parts) == parts[0] + "." + Join(".", parts[1..]);
    }
  }

  // ---- walking a path down a type -------------------------------------------------------------------

  /** The field a segment names: the first exported, unskipped one of that name. */
  function FieldNamed(fields: seq<FieldDecl>, name: string): Option<FieldDecl> {
    if fields == [] then None
    else if fields[0].exported && !fields[0].skip && fields[0].name == name then Some(fields[0])
    else FieldNamed(fields[1..], name)
  }

  /** The type one segment below t, which is no pointer and no interface. */
  function Step(decls: Decls, t: Type, seg: string): Option<Type> {
    if t.OrderedMap? then if seg == "[]" then None else Some(AnyType)
    else if !t.Named? || t.name !in decls then None
    else
      var decl := decls[t.name];
      if seg == "[]" then
        if decl.kind.ListKind? then Some(decl.kind.elem) else None
      else
        match decl.kind
        case MapKind(elem) => Some(elem)
        case StructKind(fields, badTag) =>
          if decl.form.Stringer? || badTag then None
          else
            var f := FieldNamed(fields, seg);
            if f.None? || f.value.hide then None else Some(f.value.typ)
        case _ => None
  }

  /** Whether segs lead somewhere below t; below an interface anything may. */
  predicate Leads(decls: Decls, t: Type, segs: seq<string>)
    decreases |segs|
  {
    segs == [] ||
    var u := DerefType(t);
    u.AnyType? ||
    var next := Step(decls, u, segs[0]);
    next.Some? && Leads(decls, next.value, segs[1..])
  }

  /** Whether the check accepts path for a value of static type t (None for an untyped nil). */
  predicate Accepts(decls: Decls, t: Option<Type>, path: string) {
    path == "" || (t.Some? && Split(path).Some? && Leads(decls, t.value, Split(path).value))
  }

  /** The check as it runs: the type walked down segment by segment. */
  method ValidatePath(decls: Decls, t: Option<Type>, path: string) returns (ok: bool)
    ensures ok <==> Accepts(decls, t, path)
  {
    if path == "" {
      return true;
    }
    if t.None? {
      return false;
    }
    var segs := SplitPath(path);
    if segs.None? {
      return false;
    }
    var u := t.value;
    for i := 0 to |segs.value|
      invariant Leads(decls, t.value, segs.value) <==> Leads(decls, u, segs.value[i..])
    {
      u := DerefType(u);
      if u.AnyType? {
        return true;
      }
      var next := Step(decls, u, segs.value[i]);
      if next.None? {
        return false;
      }
      u := next.value;
    }
    return true;
  }

  // ---- what is accepted, from the declarations --------------------------------------------------------

  /** Field i is the first that json sees under the name. */
  ghost predicate FirstOfName(fields: seq<FieldDecl>, name: string, i: nat) {
    && i < |fields| && fields[i].exported && !fields[i].skip && fields[i].name == name
    && forall j | 0 <= j < i :: !(fields[j].exported && !fields[j].skip && fields[j].name == name)
  }

  /** Type u lies one segment below t: any key below a map; below a list its elements, under "[]"; below a
      struct that is no Stringer and is tagged well the first field of that name, unless it is hidden. */
  ghost predicate LiesBelow(decls: Decls, t: Type, seg: string, u: Type) {
    match t
    case OrderedMap => seg != "[]" && u == AnyType
    case Named(n) =>
      n in decls && (
        match decls[n].kind
        case ScalarKind => false
        case ListKind(elem) => seg == "[]" && u == elem
        case MapKind(elem) => seg != "[]" && u == elem
        case StructKind(fields, badTag) =>
          && seg != "[]" && !decls[n].form.Stringer? && !badTag
          && exists i: nat :: FirstOfName(fields, seg, i) && !fields[i].hide && u == fields[i].typ)
    case _ => false
  }

  lemma {:induction false} FieldNamedExactly(fields: seq<FieldDecl>, name: string)
    ensures match FieldNamed(fields, name)
            case None => forall i: nat :: !FirstOfName(fields, name, i)
            case Some(f) => exists i: nat :: FirstOfName(fields, name, i) && fields[i] == f
  {
    if fields != [] {
      var rest := fields[1..];
      FieldNamedExactly(rest, name);
      if fields[0].exported && !fields[0].skip && fields[0].name == name {
        assert FirstOfName(fields, name, 0);
      } else if FieldNamed(rest, name).Some? {
        var i: nat :| FirstOfName(rest, name, i) && rest[i] == FieldNamed(rest, name).value;
        assert FirstOfName(fields, name, i + 1);
      } else {
        forall i: nat ensures !FirstOfName(fields, name, i) {
          if FirstOfName(fields, name, i) {
            assert FirstOfName(rest, name, i - 1);
          }
        }
      }
    }
  }

  lemma FirstIsOne(fields: seq<FieldDecl>, name: string, i: nat, j: nat)
    requires FirstOfName(fields, name, i) && FirstOfName(fields, name, j)
    ensures i == j
  {
  }

  lemma StepExactly(decls: Decls, t: Type, seg: string, u: Type)
    ensures Step(decls, t, seg) == Some(u) <==> LiesBelow(decls, t, seg, u)
  {
    if t.Named? && t.name in decls && decls[t.name].kind.StructKind? {
      var fields := decls[t.name].kind.fields;
      FieldNamedExactly(fields, seg);
      if FieldNamed(fields, seg).Some? {
        var i: nat :| FirstOfName(fields, seg, i) && fields[i] == FieldNamed(fields, seg).value;
        forall j: nat | FirstOfName(fields, seg, j) ensures j == i {
          FirstIsOne(fields, seg, i, j);
        }
      }
    }
  }

  /** One segment further: a path is accepted for a type exactly when its first segment names something
      there and the rest is accepted for what it names; pointers are followed, and below an interface
      anything is accepted. */
  lemma AcceptedExactly(decls: Decls, t: Type, seg: string, rest: seq<string>)
    requires GoodSegment(seg) && GoodSegments(rest)
    ensures var path := Extend("", [seg] + rest);
      match t
      case PointerTo(elem) => Accepts(decls, Some(t), path) <==> Accepts(decls, Some(elem), path)
      case AnyType => Accepts(decls, Some(t), path)
      case _ => Accepts(decls, Some(t), path) <==>
                exists u :: LiesBelow(decls, t, seg, u) && Accepts(decls, Some(u), Extend("", rest))
  {
    var segs := [seg] + rest;
    assert segs[1..] == rest;
    SplitInvertsBuild(segs);
    if !t.PointerTo? && !t.AnyType? {
      forall u ensures Step(decls, t, seg) == Some(u) <==> LiesBelow(decls, t, seg, u) {
        StepExactly(decls, t, seg, u);
      }
      forall u ensures Accepts(decls, Some(u), Extend("", rest)) <==> Leads(decls, u, rest) {
        if rest != [] {
          SplitInvertsBuild(rest);
        }
      }
      var next := Step(decls, t, seg);
      if next.Some? {
        assert LiesBelow(decls, t, seg, next.value);
      }
    }
  }

  /** One name: accepted below a map, and below a struct that is neither a Stringer nor badly tagged when
      the first field json sees under it is not hidden; below nothing else that is declared. */
  lemma NameAcceptedExactly(decls: Decls, typ: string, name: string)
    requires GoodName(name)
    ensures Accepts(decls, Some(Named(typ)), name) <==>
            && typ in decls
            && match decls[typ].kind
               case MapKind(_) => true
               case StructKind(fields, badTag) =>
                 !decls[typ].form.Stringer? && !badTag && exists i: nat :: FirstOfName(fields, name, i) && !fields[i].hide
               case _ => false
  {
    NameIsNoBrackets(name);
    assert [name] + [] == [name] && [name][1..] == [];
    assert Extend("", [name]) == Extend(Below("", name), []) == name;
    AcceptedExactly(decls, Named(typ), name, []);
    if typ in decls && decls[typ].kind.StructKind? {
      var fields := decls[typ].kind.fields;
      if i: nat :| FirstOfName(fields, name, i) && !fields[i].hide {
        assert LiesBelow(decls, Named(typ), name, fields[i].typ) || decls[typ].form.Stringer? || decls[typ].kind.badTag;
      }
    } else if typ in decls && decls[typ].kind.MapKind? {
      assert LiesBelow(decls, Named(typ), name, decls[typ].kind.elem);
    }
  }

  /** And "[]" is accepted below a list alone. */
  lemma ElementsAcceptedExactly(decls: Decls, typ: string)
    ensures Accepts(decls, Some(Named(typ)), "[]") <==> typ in decls && decls[typ].kind.ListKind?
  {
    assert ["[]"] + [] == ["[]"] && ["[]"][1..] == [];
    assert Extend("", ["[]"]) == Extend(Below("", "[]"), []) == "" + "[]" == "[]";
    AcceptedExactly(decls, Named(typ), "[]", []);
    if typ in decls && decls[typ].kind.ListKind? {
      assert LiesBelow(decls, Named(typ), "[]", decls[typ].kind.elem);
    }
  }

  // ---- what splits at all --------------------------------------------------------------------------------

  lemma PeelParts(part: string)
    ensures var (name, n) := Peel(part); part == name + Flatten(Brackets(n)) && !EndsInBrackets(name)
  {
    if EndsInBrackets(part) {
      var front := part[..|part| - 2];
      var (name, n) := Peel(front);
      PeelParts(front);
      BracketsAppend(n);
      FlattenBrackets(n);
      assert part == front + "[]";
      assert name + (Flatten(Brackets(n)) + "[]") == (name + Flatten(Brackets(n))) + "[]";
    } else {
      assert Brackets(0) == [];
      assert part + "" == part;
    }
  }

  lemma {:induction false} FlattenBrackets(n: nat)
    ensures Flatten(Brackets(n + 1)) == Flatten(Brackets(n)) + "[]"
    ensures Brackets(n + 1)[1..] == Brackets(n)
  {
    assert Brackets(n + 1)[1..] == Brackets(n);
    if n > 0 {
      FlattenBrackets(n - 1);
      assert "[]" + (Flatten(Brackets(n - 1)) + "[]") == ("[]" + Flatten(Brackets(n - 1))) + "[]";
    } else {
      assert Brackets(0) == [];
      assert Flatten(Brackets(1)) == "[]" + "" == "[]" == "" + "[]";
    }
  }

  lemma {:induction false} ExtendBrackets(q: string, n: nat)
    ensures Extend(q, Brackets(n)) == q + Flatten(Brackets(n))
    decreases n
  {
    if n == 0 {
      assert Brackets(0) == [];
      assert q + "" == q;
    } else {
      FlattenBrackets(n - 1);
      ExtendBrackets(q + "[]", n - 1);
      assert Flatten(Brackets(n)) == "[]" + Flatten(Brackets(n)[1..]);
      assert (q + "[]") + Flatten(Brackets(n - 1)) == q + ("[]" + Flatten(Brackets(n - 1)));
    }
  }

  lemma {:induction false} ExtendConcat(q: string, a: seq<string>, b: seq<string>)
    ensures Extend(q, a + b) == Extend(Extend(q, a), b)
    decreases |a|
  {
    if a == [] {
      assert a + b == b;
    } else {
      assert (a + b)[1..] == a[1..] + b;
      ExtendConcat(Below(q, a[0]), a[1..], b);
    }
  }

  /** A name with "[]"s after it, spelled below q. */
  lemma NameIsSpelled(q: string, name: string, n: nat)
    requires GoodName(name)
    ensures Extend(q, [name] + Brackets(n)) == JoinPath(q, name) + Flatten(Brackets(n))
  {
    NameIsNoBrackets(name);
    ExtendConcat(q, [name], Brackets(n));
    assert [name][1..] == [];
    assert Extend(q, [name]) == Extend(Below(q, name), []) == JoinPath(q, name);
    ExtendBrackets(JoinPath(q, name), n);
  }

  /** A part that splits is spelled by its segments, after what comes before it. */
  lemma PartIsSpelled(q: string, part: string, first: bool)
    requires PartSegments(part, first).Some? && '.' !in part && (first <==> q == "")
    ensures GoodSegments(PartSegments(part, first).value) && PartSegments(part, first).value != []
    ensures Extend(q, PartSegments(part, first).value) == if first then part else q + "." + part
  {
    var (name, n) := Peel(part);
    PeelParts(part);
    assert forall c | c in name :: c in part;
    if name == "" {
      ExtendBrackets(q, n);
      assert [] + Brackets(n) == Brackets(n);
    } else {
      NameIsSpelled(q, name, n);
      DotJoins(q, name, Flatten(Brackets(n)));
    }
  }

  lemma DotJoins(q: string, name: string, rest: string)
    ensures (q + "." + name) + rest == q + "." + (name + rest)
  {
  }

  lemma {:induction false} PartsAreSpelled(parts: seq<string>)
    requires Segments(parts).Some? && forall p | p in parts :: '.' !in p
    ensures GoodSegments(Segments(parts).value)
    ensures parts != [] ==> Extend("", Segments(parts).value) == Join(".", parts) != "" && Segments(parts).value != []
  {
    if parts != [] {
      var k := |parts| - 1;
      var front, last := parts[..k], PartSegments(parts[k], k == 0).value;
      assert forall p | p in front :: p in parts;
      assert parts[k] in parts;
      PartsAreSpelled(front);
      var before := Segments(front).value;
      var q := Extend("", before);
      PartIsSpelled(q, parts[k], k == 0);
      ExtendConcat("", before, last);
      assert parts == front + [parts[k]];
      JoinLast(front, parts[k]);
      if k == 0 {
        assert before + last == last && parts == [parts[0]];
      }
    }
  }

  /** A path splits into segments exactly when the walk could have spelled it from them: names that are not
      empty and hold no dot or bracket, and "[]". Any other path is malformed. */
  lemma SplitExactly(path: string, segs: seq<string>)
    ensures Split(path) == Some(segs) <==> segs != [] && GoodSegments(segs) && path == Extend("", segs)
  {
    if Split(path) == Some(segs) {
      JoinSplit('.', path);
      PartsAreSpelled(SplitOn('.', path));
    }
    if segs != [] && GoodSegments(segs) {
      SplitInvertsBuild(segs);
    }
  }

  // ---- what well-typed values look like -------------------------------------------------------------

  ghost predicate HasType(decls: Decls, v: Value, t: Type)
    decreases v
  {
    match v
    case Nil => t.PointerTo? || t.AnyType?
    case Pointer(w) => t.PointerTo? && HasType(decls, w, t.elem)
    case Interface(dynamic, w) => t.AnyType? && !dynamic.AnyType? && HasType(decls, w, dynamic)
    case Scalar(n, _, _) => t == Named(n) && n in decls && decls[n].kind.ScalarKind?
    case Struct(n, _, fs) =>
      && t == Named(n) && n in decls && decls[n].kind.StructKind? && |fs| == |decls[n].kind.fields|
      && forall i | 0 <= i < |fs| :: HasType(decls, fs[i], decls[n].kind.fields[i].typ)
    case List(n, _, es) =>
      && t == Named(n) && n in decls && decls[n].kind.ListKind?
      && forall i | 0 <= i < |es| :: HasType(decls, es[i], decls[n].kind.elem)
    case GoMap(n, _, es) =>
      && t == Named(n) && n in decls && decls[n].kind.MapKind?
      && forall i | 0 <= i < |es| :: HasType(decls, es[i].val, decls[n].kind.elem)
    case Ordered(_, es) =>
      t.OrderedMap? && forall i | 0 <= i < |es| :: HasType(decls, es[i].val, AnyType)
  }

  /** Field names are good, and unique among the fields json sees. */
  ghost predicate GoodNames(decls: Decls) {
    forall n | n in decls && decls[n].kind.StructKind? ::
      var fs := decls[n].kind.fields;
      && (forall i | 0 <= i < |fs| && fs[i].exported && !fs[i].skip :: GoodName(fs[i].name))
      && (forall i, j | 0 <= i < j < |fs| && fs[i].exported && !fs[i].skip && fs[j].exported && !fs[j].skip ::
            fs[i].name != fs[j].name)
  }

  /** Every map key anywhere in v is good. */
  ghost predicate GoodKeys(v: Value) {
    match v
    case Pointer(w) => GoodKeys(w)
    case Interface(_, w) => GoodKeys(w)
    case Struct(_, _, fs) => forall i | 0 <= i < |fs| :: GoodKeys(fs[i])
    case List(_, _, es) => forall i | 0 <= i < |es| :: GoodKeys(es[i])
    case GoMap(_, _, es) => forall i | 0 <= i < |es| :: GoodName(es[i].key) && GoodKeys(es[i].val)
    case Ordered(_, es) => forall i | 0 <= i < |es| :: GoodName(es[i].key) && GoodKeys(es[i].val)
    case _ => true
  }

  /** Wherever t leads, u leads too. */
  ghost predicate LeadsAsFar(decls: Decls, t: Type, u: Type) {
    forall segs :: Leads(decls, t, segs) ==> Leads(decls, u, segs)
  }

  /** Dereferencing a value of type u leaves one whose own type leads nowhere u does not. */
  lemma DerefTyped(decls: Decls, v: Value, u: Type)
    requires HasType(decls, v, u) && GoodKeys(v) && !Deref(v).Nil?
    ensures HasType(decls, Deref(v), TypeOf(Deref(v))) && GoodKeys(Deref(v))
    ensures LeadsAsFar(decls, TypeOf(Deref(v)), u)
    ensures !DerefType(u).AnyType? ==> DerefType(u) == TypeOf(Deref(v))
    decreases v
  {
    match v
    case Pointer(w) =>
      DerefTyped(decls, w, u.elem);
      forall segs | Leads(decls, TypeOf(Deref(v)), segs) ensures Leads(decls, u, segs) {
        assert Leads(decls, u.elem, segs);
      }
    case Interface(dynamic, w) => DerefTyped(decls, w, dynamic);
    case _ =>
  }

  lemma FieldNamedFinds(fields: seq<FieldDecl>, i: nat)
    requires i < |fields| && fields[i].exported && !fields[i].skip
    requires forall j | 0 <= j < i && fields[j].exported && !fields[j].skip :: fields[j].name != fields[i].name
    ensures FieldNamed(fields, fields[i].name) == Some(fields[i])
  {
    if i > 0 {
      FieldNamedFinds(fields[1..], i - 1);
    }
  }

  /** The item is one step of the check below dv's type, and its value has the type found there. */
  ghost predicate ItemBelow(decls: Decls, dv: Value, item: Item)
    requires !dv.Nil? && !dv.Pointer? && !dv.Interface?
  {
    var u := Step(decls, TypeOf(dv), item.name);
    u.Some? && HasType(decls, item.val, u.value)
  }

  lemma NameIsNoBrackets(name: string)
    requires GoodName(name)
    ensures name != "[]"
  {
    assert "[]"[0] == '[';
  }

  ghost predicate FieldsBelow(decls: Decls, dv: Value, items: seq<Item>)
    requires !dv.Nil? && !dv.Pointer? && !dv.Interface?
  {
    forall i | 0 <= i < |items| :: ItemBelow(decls, dv, items[i])
  }

  /** Names that tell dv's members apart, and from its elements: no key is "[]", and no field that json
      sees is called that or as another is. */
  ghost predicate StepNames(decls: Decls, dv: Value) {
    match dv
    case Struct(n, _, _) =>
      var fs := FieldsOf(decls, n);
      && (forall i | 0 <= i < |fs| && fs[i].exported && !fs[i].skip :: fs[i].name != "[]")
      && (forall i, j | 0 <= i < j < |fs| && fs[i].exported && !fs[i].skip && fs[j].exported && !fs[j].skip ::
            fs[i].name != fs[j].name)
    case _ => forall i | 0 <= i < |EntriesOf(dv)| :: EntriesOf(dv)[i].key != "[]"
  }

  /** Field k - 1 is an item when it is shown, after those before it. */
  lemma ItemsSnoc(fields: seq<FieldDecl>, vals: seq<Value>, k: nat)
    requires 0 < k <= |fields| == |vals|
    ensures var f, val := fields[k - 1], vals[k - 1];
      ItemsOfFields(fields[..k], vals[..k]) == ItemsOfFields(fields[..k - 1], vals[..k - 1])
        + if Visible(f) && !(f.omitEmpty && IsEmptyValue(val)) then [Item(f.name, f.caption, val)] else []
  {
    assert fields[..k][..k - 1] == fields[..k - 1] && vals[..k][..k - 1] == vals[..k - 1];
    assert fields[..k][k - 1] == fields[k - 1] && vals[..k][k - 1] == vals[k - 1];
  }

  lemma VisibleFieldBelow(decls: Decls, dv: Value, i: nat)
    requires dv.Struct? && StepNames(decls, dv) && HasType(decls, dv, TypeOf(dv)) && i < |dv.fields|
    requires !decls[dv.typ].form.Stringer? && !decls[dv.typ].kind.badTag && Visible(FieldsOf(decls, dv.typ)[i])
    ensures var f := FieldsOf(decls, dv.typ)[i]; ItemBelow(decls, dv, Item(f.name, f.caption, dv.fields[i]))
  {
    FieldNamedFinds(FieldsOf(decls, dv.typ), i);
  }

  /** What holds of each shown field holds of each item. */
  lemma {:induction false} FieldItemsBelow(decls: Decls, dv: Value, fields: seq<FieldDecl>, vals: seq<Value>, k: nat)
    requires !dv.Nil? && !dv.Pointer? && !dv.Interface? && k <= |fields| == |vals|
    requires forall i | 0 <= i < |fields| && Visible(fields[i]) ::
      ItemBelow(decls, dv, Item(fields[i].name, fields[i].caption, vals[i]))
    ensures FieldsBelow(decls, dv, ItemsOfFields(fields[..k], vals[..k]))
  {
    if k > 0 {
      FieldItemsBelow(decls, dv, fields, vals, k - 1);
      ItemsSnoc(fields, vals, k);
    }
  }

  /** Every member the walk visits is one step of the check below its parent. */
  lemma ItemsBelow(decls: Decls, dv: Value)
    requires (IsMapLike(dv) || dv.Struct?) && StepNames(decls, dv) && HasType(decls, dv, TypeOf(dv))
    requires dv.Struct? ==> !decls[dv.typ].form.Stringer?
    ensures Items(decls, dv).Ok? ==> FieldsBelow(decls, dv, Items(decls, dv).value)
  {
    match dv
    case Struct(t, _, fs) =>
      if !decls[t].kind.badTag {
        var fields := FieldsOf(decls, t);
        forall i | 0 <= i < |fields| && Visible(fields[i])
          ensures ItemBelow(decls, dv, Item(fields[i].name, fields[i].caption, fs[i]))
        {
          VisibleFieldBelow(decls, dv, i);
        }
        FieldItemsBelow(decls, dv, fields, fs, |fs|);
        assert FieldsOf(decls, t)[..|fs|] == FieldsOf(decls, t) && fs[..|fs|] == fs;
      }
    case GoMap(t, _, es) =>
    case Ordered(_, es) =>
    case _ =>
  }

  ghost predicate GoodItems(items: seq<Item>) {
    forall i | 0 <= i < |items| :: GoodName(items[i].name) && GoodKeys(items[i].val)
  }

  lemma {:induction false} FieldItemsGood(fields: seq<FieldDecl>, vals: seq<Value>)
    requires |fields| == |vals| && forall i | 0 <= i < |vals| :: GoodKeys(vals[i])
    requires forall i | 0 <= i < |fields| && Visible(fields[i]) :: GoodName(fields[i].name)
    ensures GoodItems(ItemsOfFields(fields, vals))
  {
    if fields != [] {
      FieldItemsGood(fields[..|fields| - 1], vals[..|fields| - 1]);
    }
  }

  lemma MembersGood(decls: Decls, dv: Value)
    requires GoodNames(decls) && GoodKeys(dv) && (IsMapLike(dv) || dv.Struct?)
    ensures StepNames(decls, dv)
    ensures Items(decls, dv).Ok? ==> GoodItems(Items(decls, dv).value)
  {
    forall name: string | GoodName(name) ensures name != "[]" {
      NameIsNoBrackets(name);
    }
    if dv.Struct? && |FieldsOf(decls, dv.typ)| == |dv.fields| {
      FieldItemsGood(FieldsOf(decls, dv.typ), dv.fields);
    }
  }

  // ---- what the check accepts covers what is asked for -------------------------------------------------

  ghost predicate Within(paths: set<string>, ok: iset<string>) {
    forall p | p in paths :: p in ok
  }

  /** ok holds every path the check accepts below q, a node of type t. */
  ghost predicate Covers(decls: Decls, ok: iset<string>, q: string, t: Type) {
    forall segs :: GoodSegments(segs) && Leads(decls, t, segs) ==> Extend(q, segs) in ok
  }

  lemma CoversHere(decls: Decls, ok: iset<string>, q: string, t: Type)
    requires Covers(decls, ok, q, t)
    ensures q in ok
  {
    assert Leads(decls, t, []) && GoodSegments([]);
    assert Extend(q, []) == q;
  }

  lemma CoversBelow(decls: Decls, ok: iset<string>, q: string, t: Type, seg: string, u: Type)
    requires Covers(decls, ok, q, t) && GoodSegment(seg) && Step(decls, DerefType(t), seg) == Some(u)
    ensures Covers(decls, ok, Below(q, seg), u)
  {
    forall segs | GoodSegments(segs) && Leads(decls, u, segs) ensures Extend(Below(q, seg), segs) in ok {
      var all := [seg] + segs;
      assert all[1..] == segs;
      assert Leads(decls, t, all) && GoodSegments(all);
      assert Extend(q, all) == Extend(Below(q, seg), segs);
    }
  }

  lemma CoversName(decls: Decls, ok: iset<string>, q: string, t: Type, name: string, u: Type)
    requires Covers(decls, ok, q, t) && GoodName(name) && Step(decls, DerefType(t), name) == Some(u)
    ensures Covers(decls, ok, JoinPath(q, name), u) && JoinPath(q, name) in ok
  {
    NameIsNoBrackets(name);
    CoversBelow(decls, ok, q, t, name, u);
    CoversHere(decls, ok, JoinPath(q, name), u);
  }

  /** dv is typed as its own type says, and so is everything in it. */
  ghost predicate Sound(decls: Decls, dv: Value) {
    !dv.Nil? && !dv.Pointer? && !dv.Interface? && GoodNames(decls) && GoodKeys(dv) && HasType(decls, dv, TypeOf(dv))
  }

  /** A value whose members the walk visits, as against one it renders whole. */
  ghost predicate HasMembers(decls: Decls, dv: Value) {
    IsMapLike(dv) || (dv.Struct? && dv.typ in decls && !decls[dv.typ].form.Stringer?)
  }

  lemma CoversElems(decls: Decls, ok: iset<string>, dv: Value, path: string)
    requires Sound(decls, dv) && dv.List? && Covers(decls, ok, path, TypeOf(dv))
    ensures Covers(decls, ok, path + "[]", ElemType(decls, dv.typ)) && path + "[]" in ok
  {
    CoversBelow(decls, ok, path, TypeOf(dv), "[]", ElemType(decls, dv.typ));
    CoversHere(decls, ok, path + "[]", ElemType(decls, dv.typ));
  }

  lemma TableCovered(d: Deriver, ok: iset<string>, dv: Value, elemPath: string)
    requires Sound(d.decls, dv) && dv.List? && TableShaped(d.decls, dv)
    requires Covers(d.decls, ok, elemPath, ElemType(d.decls, dv.typ))
    ensures Within(TableAsks(d, dv, elemPath), ok)
  {
    var elem := ElemType(d.decls, dv.typ);
    if IsTableSlice(d.decls, dv) {
      var typ := DerefType(elem).name;
      var fields := FieldsOf(d.decls, typ);
      if !BadlyTagged(d.decls, typ) {
        forall i | 0 <= i < |fields| && Visible(fields[i]) ensures JoinPath(elemPath, fields[i].name) in ok {
          NameIsNoBrackets(fields[i].name);
          FieldNamedFinds(fields, i);
          CoversName(d.decls, ok, elemPath, elem, fields[i].name, fields[i].typ);
        }
      }
    } else {
      ColsCovered(d, ok, dv.elems[0], elem, elemPath);
    }
  }

  lemma ColsCovered(d: Deriver, ok: iset<string>, first: Value, elem: Type, elemPath: string)
    requires GoodNames(d.decls) && GoodKeys(first) && HasType(d.decls, first, elem) && IsMapLike(Deref(first))
    requires Covers(d.decls, ok, elemPath, elem)
    ensures Within(ColsAsk(Keys(EntriesOf(Deref(first))), elemPath), ok)
  {
    var dv := Deref(first);
    var cols := Keys(EntriesOf(dv));
    DerefTyped(d.decls, first, elem);
    MembersGood(d.decls, dv);
    ItemsBelow(d.decls, dv);
    var items := ItemsOfEntries(EntriesOf(dv));
    forall i | 0 <= i < |cols| ensures JoinPath(elemPath, cols[i]) in ok {
      assert ItemBelow(d.decls, dv, items[i]) && GoodName(items[i].name);
      CoversName(d.decls, ok, elemPath, TypeOf(dv), cols[i], Step(d.decls, TypeOf(dv), cols[i]).value);
    }
  }

  lemma MemberCovered(d: Deriver, ok: iset<string>, fv: Value, u: Type, path: string)
    requires GoodNames(d.decls) && GoodKeys(fv) && HasType(d.decls, fv, u) && Covers(d.decls, ok, path, u)
    ensures Within(MemberAsks(d, fv, path), ok)
    decreases fv, 4, 0
  {
    CoversHere(d.decls, ok, path, u);
    var dv := Deref(fv);
    if !dv.Nil? {
      DerefTyped(d.decls, fv, u);
      if Classify(d.decls, dv).ScalarField? {
        if dv.List? {
          CoversElems(d.decls, ok, dv, path);
        }
      } else if dv.List? {
        ListCovered(d, ok, dv, path);
      } else {
        MembersCovered(d, ok, dv, path);
      }
    }
  }

  lemma MembersCovered(d: Deriver, ok: iset<string>, dv: Value, path: string)
    requires dv.Nil? || (Sound(d.decls, dv) && HasMembers(d.decls, dv) && Covers(d.decls, ok, path, TypeOf(dv)))
    ensures Within(MembersAsk(d, dv, path), ok)
    decreases dv, 1, 0
  {
    if !dv.Nil? && Items(d.decls, dv).Ok? {
      MembersGood(d.decls, dv);
      ItemsBelow(d.decls, dv);
      ItemsCovered(d, ok, dv, Items(d.decls, dv).value, path);
    }
  }

  lemma ItemsCovered(d: Deriver, ok: iset<string>, parent: Value, items: seq<Item>, path: string)
    requires Sound(d.decls, parent) && Covers(d.decls, ok, path, TypeOf(parent))
    requires FieldsBelow(d.decls, parent, items) && GoodItems(items)
    requires forall i | 0 <= i < |items| :: items[i].val < parent
    ensures Within(ItemsAsk(d, parent, items, path), ok)
    decreases parent, 0, |items|
  {
    if items != [] {
      var k := |items| - 1;
      ItemsCovered(d, ok, parent, items[..k], path);
      assert ItemBelow(d.decls, parent, items[k]) && GoodName(items[k].name);
      ItemCovered(d, ok, parent, items[k], path);
    }
  }

  lemma ItemCovered(d: Deriver, ok: iset<string>, parent: Value, item: Item, path: string)
    requires Sound(d.decls, parent) && Covers(d.decls, ok, path, TypeOf(parent)) && item.val < parent
    requires ItemBelow(d.decls, parent, item) && GoodName(item.name) && GoodKeys(item.val)
    ensures Within(MemberAsks(d, item.val, JoinPath(path, item.name)), ok)
    decreases parent, 0, 0
  {
    var u := Step(d.decls, TypeOf(parent), item.name).value;
    CoversName(d.decls, ok, path, TypeOf(parent), item.name, u);
    MemberCovered(d, ok, item.val, u, JoinPath(path, item.name));
  }

  lemma ListCovered(d: Deriver, ok: iset<string>, dv: Value, path: string)
    requires Sound(d.decls, dv) && dv.List? && Covers(d.decls, ok, path, TypeOf(dv))
    requires IsTableSlice(d.decls, dv) || IsMapList(dv)
    ensures Within(ListAsks(d, dv, path), ok)
    decreases dv, 2, 0
  {
    var elemPath, elem := path + "[]", ElemType(d.decls, dv.typ);
    CoversElems(d.decls, ok, dv, path);
    if !ElementViews(d, dv, elemPath) && TableShaped(d.decls, dv) {
      TableCovered(d, ok, dv, elemPath);
    } else {
      forall i | 0 <= i < |dv.elems| && !Deref(dv.elems[i]).Nil? ensures HasMembers(d.decls, Deref(dv.elems[i])) {
        DerefTyped(d.decls, dv.elems[i], elem);
      }
      ElementsCovered(d, ok, dv, dv.elems, elemPath, elem);
    }
  }

  lemma ElementsCovered(d: Deriver, ok: iset<string>, parent: Value, elems: seq<Value>, elemPath: string, elem: Type)
    requires GoodNames(d.decls) && Covers(d.decls, ok, elemPath, elem)
    requires forall i | 0 <= i < |elems| :: elems[i] < parent && GoodKeys(elems[i]) && HasType(d.decls, elems[i], elem)
    requires forall i | 0 <= i < |elems| && !Deref(elems[i]).Nil? :: HasMembers(d.decls, Deref(elems[i]))
    ensures Within(ElementsAsk(d, parent, elems, elemPath), ok)
    decreases parent, 0, |elems|
  {
    if elems != [] {
      var k := |elems| - 1;
      ElementsCovered(d, ok, parent, elems[..k], elemPath, elem);
      if !Deref(elems[k]).Nil? {
        DerefTyped(d.decls, elems[k], elem);
      }
      MembersCovered(d, ok, Deref(elems[k]), elemPath);
    }
  }

  lemma RootCovered(d: Deriver, ok: iset<string>, v: Value, t: Type)
    requires GoodNames(d.decls) && GoodKeys(v) && HasType(d.decls, v, t) && Covers(d.decls, ok, "", t)
    ensures Within(PathsAsked(d, v), ok)
  {
    CoversHere(d.decls, ok, "", t);
    var dv := Deref(v);
    if !dv.Nil? {
      DerefTyped(d.decls, v, t);
      if dv.List? && !Classify(d.decls, dv).ScalarField? {
        ListCovered(d, ok, dv, "");
      } else if dv.List? {
        CoversElems(d.decls, ok, dv, "");
        assert "" + "[]" == "[]";
      } else if Classify(d.decls, dv).SectionField? {
        MembersCovered(d, ok, dv, "");
      }
    }
  }

  // ---- refused paths --------------------------------------------------------------------------------

  /** The check accepts every path the derivation of v by d asks for; t is v's static type, None for an
      untyped nil. */
  ghost predicate AcceptsAllAsked(d: Deriver, v: Value, t: Option<Type>) {
    forall p | p in PathsAsked(d, v) :: Accepts(d.decls, t, p)
  }

  /** A path the check refuses is inert: whatever the other views and whatever view is put there, the
      derivation, its document or its error, is what it is without. */
  lemma RefusedPathIsInert(d: Deriver, v: Value, t: Option<Type>, path: string, view: View)
    requires AcceptsAllAsked(d, v, t) && !Accepts(d.decls, t, path)
    ensures Root(Viewed(d, path, view), v) == Root(d, v)
  {
    UnaskedIsInert(d, v, path, view);
  }

  /** And no less will do: for any value, typed in any way, every refused path is inert exactly when the
      check accepts every path that is asked for. */
  lemma RefusedPathsInertExactly(decls: Decls, v: Value, t: Option<Type>)
    requires Root(Bare(decls), v).Ok?
    ensures (forall path: string, view: View | !Accepts(decls, t, path) ::
               Root(Viewed(Bare(decls), path, view), v) == Root(Bare(decls), v))
            <==> AcceptsAllAsked(Bare(decls), v, t)
  {
    if AcceptsAllAsked(Bare(decls), v, t) {
      forall path: string, view: View | !Accepts(decls, t, path)
        ensures Root(Viewed(Bare(decls), path, view), v) == Root(Bare(decls), v)
      {
        RefusedPathIsInert(Bare(decls), v, t, path, view);
      }
    } else {
      var p :| p in PathsAsked(Bare(decls), v) && !Accepts(decls, t, p);
      RootHit(decls, v, p);
      assert Root(Viewed(Bare(decls), p, FAILING), v) != Root(Bare(decls), v);
    }
  }

  /** Good names are accepted: of a well-typed value whose field names and keys are good, the check
      accepts every path any deriver asks for. */
  lemma GoodNamesAreAccepted(d: Deriver, v: Value, t: Type)
    requires GoodNames(d.decls) && GoodKeys(v) && HasType(d.decls, v, t)
    ensures AcceptsAllAsked(d, v, Some(t))
  {
    var ok := iset p: string | Accepts(d.decls, Some(t), p);
    forall segs | GoodSegments(segs) && Leads(d.decls, t, segs) ensures Extend("", segs) in ok {
      if segs != [] {
        SplitInvertsBuild(segs);
      }
    }
    RootCovered(d, ok, v, t);
  }

  /** An untyped nil has no node but the root, which is the one path accepted for it. */
  lemma RefusedPathIsInertForNil(d: Deriver, path: string, view: View)
    requires !Accepts(d.decls, None, path)
    ensures AcceptsAllAsked(d, Nil, None) && Root(Viewed(d, path, view), Nil) == Root(d, Nil)
  {
    RefusedPathIsInert(d, Nil, None, path, view);
  }

  // ---- names that are no segment --------------------------------------------------------------------

  /** A map from strings to strings; a map from strings to such maps. */
  const ENV := map["Env" := Decl(NoForm, MapKind(Named("string"))), "string" := Decl(NoForm, ScalarKind)]

  const ENVS := ENV["Envs" := Decl(NoForm, MapKind(Named("Env")))]

  const X := Scalar("string", "x", false)

  function OneEntry(key: string): Value { GoMap("Env", "", [Entry(key, X)]) }

  lemma RootKeyIsGood(key: string)
    requires key != "" && Split(key).Some? && Leads(ENV, Named("Env"), Split(key).value)
    ensures GoodName(key)
  {
    var segs := Split(key).value;
    SplitExactly(key, segs);
    assert segs[0] != "[]" && Leads(ENV, Named("string"), segs[1..]);
    assert segs == [segs[0]];
    assert Extend("", segs) == Extend(segs[0], []) == segs[0];
  }

  /** At the root, over a map of strings, an entry's path is accepted exactly when its key is empty or
      good. */
  lemma KeyAcceptedExactly(key: string)
    ensures Accepts(ENV, Some(Named("Env")), JoinPath("", key)) <==> key == "" || GoodName(key)
  {
    if GoodName(key) {
      NameIsNoBrackets(key);
      SplitInvertsBuild([key]);
      assert [key][1..] == [];
      assert Extend("", [key]) == Extend(key, []) == key;
      assert Step(ENV, Named("Env"), key) == Some(Named("string"));
      assert Leads(ENV, Named("string"), [key][1..]);
      assert Leads(ENV, Named("Env"), [key]);
    } else if key != "" && Split(key).Some? && Leads(ENV, Named("Env"), Split(key).value) {
      RootKeyIsGood(key);
    }
  }

  /** A map with one entry asks for its path, and below it. */
  lemma OneEntryAsks(d: Deriver, typ: string, key: string, val: Value, path: string)
    ensures MembersAsk(d, GoMap(typ, "", [Entry(key, val)]), path) == MemberAsks(d, val, JoinPath(path, key))
  {
    var dv := GoMap(typ, "", [Entry(key, val)]);
    var items := [Item(key, key, val)];
    assert ItemsOfEntries(EntriesOf(dv)) == items;
    assert Items(d.decls, dv) == Ok(items);
    assert items[..0] == [];
    assert ItemsAsk(d, dv, items[..0], path) == {};
  }

  /** Over a map of one string, every refused path is inert exactly when the key is empty or good. With a
      key like "a.b" the path the walk gives the entry is refused, and a view there would have run. */
  lemma RefusedInertExactlyForGoodKeys(key: string)
    ensures (forall path: string, view: View | !Accepts(ENV, Some(Named("Env")), path) ::
               Root(Viewed(Bare(ENV), path, view), OneEntry(key)) == Root(Bare(ENV), OneEntry(key)))
            <==> key == "" || GoodName(key)
  {
    BareDerives(ENV, OneEntry(key));
    KeyAcceptedExactly(key);
    OneEntryAsks(Bare(ENV), "Env", key, X, "");
    assert PathsAsked(Bare(ENV), OneEntry(key)) == {"", JoinPath("", key)};
    RefusedPathsInertExactly(ENV, OneEntry(key), Some(Named("Env")));
  }

  /** A path that the check refuses for the value's type, and at which a view would have run. */
  ghost predicate RefusedYetSeen(decls: Decls, v: Value, typ: string, path: string) {
    && HasType(decls, v, Named(typ)) && !Accepts(decls, Some(Named(typ)), path)
    && exists view: View :: Root(Viewed(Bare(decls), path, view), v) != Root(Bare(decls), v)
  }

  lemma AskedIsSeen(decls: Decls, v: Value, typ: string, path: string)
    requires WellTagged(decls) && HasType(decls, v, Named(typ))
    requires path in PathsAsked(Bare(decls), v) && !Accepts(decls, Some(Named(typ)), path)
    ensures RefusedYetSeen(decls, v, typ, path)
  {
    BareDerives(decls, v);
    RootHit(decls, v, path);
    assert Root(Viewed(Bare(decls), path, FAILING), v) != Root(Bare(decls), v);
  }

  /** A path of two dotted parts. */
  lemma SplitTwo(a: string, b: string)
    requires GoodName(a) && '.' !in b
    ensures Split(a + "." + b) == if PartSegments(b, false).Some? then Some([a] + PartSegments(b, false).value) else None
  {
    SplitJoin('.', [a, b]);
    assert [a, b][1..] == [b] && Join(".", [a, b]) == a + "." + b;
    assert [a, b][..1] == [a] && [a][..0] == [];
    NameIsSegment(a, true);
    assert Segments([a][..0]) == Some([]) && [] + [a] == [a];
    assert Segments([a]) == Some([a]);
  }

  /** A map or struct that is not rendered whole asks for its members' paths. */
  lemma SectionAsks(d: Deriver, v: Value, path: string)
    requires (v.GoMap? || v.Struct?) && !FormOf(d.decls, v).Stringer?
    ensures PathsAsked(d, v) == {""} + MembersAsk(d, v, "")
    ensures MemberAsks(d, v, path) == {path} + MembersAsk(d, v, path)
  {
  }

  lemma EntryIsTyped(decls: Decls, typ: string, key: string, val: Value)
    requires typ in decls && decls[typ].kind.MapKind? && HasType(decls, val, decls[typ].kind.elem)
    ensures HasType(decls, GoMap(typ, "", [Entry(key, val)]), Named(typ))
  {
  }

  lemma NestedIsAsked()
    ensures "m." in PathsAsked(Bare(ENVS), GoMap("Envs", "", [Entry("m", OneEntry(""))]))
  {
    SectionAsks(Bare(ENVS), GoMap("Envs", "", [Entry("m", OneEntry(""))]), "");
    OneEntryAsks(Bare(ENVS), "Envs", "m", OneEntry(""), "");
    SectionAsks(Bare(ENVS), OneEntry(""), "m");
    OneEntryAsks(Bare(ENVS), "Env", "", X, "m");
    assert JoinPath("m", "") == "m.";
  }

  lemma NestedIsRefused()
    ensures !Accepts(ENVS, Some(Named("Envs")), "m.")
  {
    SplitTwo("m", "");
    assert "m" + "." + "" == "m.";
  }

  /** Below the root an empty key is refused too: the path "m." has an empty part. */
  lemma NestedEmptyKeyIsRefused()
    ensures RefusedYetSeen(ENVS, GoMap("Envs", "", [Entry("m", OneEntry(""))]), "Envs", "m.")
  {
    EntryIsTyped(ENVS, "Env", "", X);
    EntryIsTyped(ENVS, "Envs", "m", OneEntry(""));
    NestedIsAsked();
    NestedIsRefused();
    AskedIsSeen(ENVS, GoMap("Envs", "", [Entry("m", OneEntry(""))]), "Envs", "m.");
  }

  function Shown(name: string, typ: string): FieldDecl { FieldDecl(name, name, name, true, false, false, false, Named(typ)) }

  lemma LastFieldIsItem(front: seq<FieldDecl>, vals: seq<Value>, last: FieldDecl, val: Value)
    requires |vals| == |front| && Visible(last) && !last.omitEmpty
    ensures ItemsOfFields(front + [last], vals + [val])
         == ItemsOfFields(front, vals) + [Item(last.name, last.caption, val)]
  {
    assert (front + [last])[..|front|] == front && (vals + [val])[..|vals|] == vals;
  }

  /** A struct with these shown fields asks for the last one's paths. */
  lemma LastFieldAsks(d: Deriver, front: seq<FieldDecl>, vals: seq<Value>, last: FieldDecl, val: Value)
    requires "S" in d.decls && d.decls["S"] == Decl(NoForm, StructKind(front + [last], false)) && |vals| == |front|
    requires Visible(last) && !last.omitEmpty
    ensures MemberAsks(d, val, JoinPath("", last.name)) <= PathsAsked(d, Struct("S", "", vals + [val]))
  {
    var v := Struct("S", "", vals + [val]);
    var items := ItemsOfFields(front, vals) + [Item(last.name, last.caption, val)];
    LastFieldIsItem(front, vals, last, val);
    assert Items(d.decls, v) == Ok(items);
    SectionAsks(d, v, "");
    assert MembersAsk(d, v, "") == ItemsAsk(d, v, items, "");
  }

  const DOTTED := ENV["S" := Decl(NoForm, StructKind([] + [Shown("a.b", "string")], false))]

  lemma NoFieldNamedA()
    ensures !Accepts(DOTTED, Some(Named("S")), "a.b")
  {
    SplitTwo("a", "b");
    NameIsSegment("b", false);
    assert "a" + "." + "b" == "a.b";
    var fields := [] + [Shown("a.b", "string")];
    assert fields[0].name != "a" && fields[1..] == [];
    assert FieldNamed(fields, "a") == None;
    assert Step(DOTTED, Named("S"), "a") == None;
  }

  /** The tag "a.b" names a field whose path the check refuses. */
  lemma DottedFieldIsRefused()
    ensures RefusedYetSeen(DOTTED, Struct("S", "", [] + [X]), "S", "a.b")
  {
    var field := Shown("a.b", "string");
    assert "a.b" in PathsAsked(Bare(DOTTED), Struct("S", "", [] + [X])) by {
      LastFieldAsks(Bare(DOTTED), [], [], field, X);
    }
    NoFieldNamedA();
    AskedIsSeen(DOTTED, Struct("S", "", [] + [X]), "S", "a.b");
  }

  const REPEATED := ENV["S" := Decl(NoForm, StructKind([Shown("x", "string")] + [Shown("x", "Env")], false))]

  lemma RepeatedIsAsked()
    ensures "x.k" in PathsAsked(Bare(REPEATED), Struct("S", "", [X] + [OneEntry("k")]))
  {
    LastFieldAsks(Bare(REPEATED), [Shown("x", "string")], [X], Shown("x", "Env"), OneEntry("k"));
    SectionAsks(Bare(REPEATED), OneEntry("k"), "x");
    OneEntryAsks(Bare(REPEATED), "Env", "k", X, "x");
    assert JoinPath("x", "k") == "x.k";
  }

  lemma RepeatedIsRefused()
    ensures !Accepts(REPEATED, Some(Named("S")), "x.k")
  {
    SplitTwo("x", "k");
    NameIsSegment("k", false);
    assert "x" + "." + "k" == "x.k";
    assert (["x"] + ["k"])[1..] == ["k"];
    assert Step(REPEATED, Named("S"), "x") == Some(Named("string"));
  }

  /** Of two fields with one name the check looks below the first; the walk shows both. */
  lemma RepeatedNameIsRefused()
    ensures RefusedYetSeen(REPEATED, Struct("S", "", [X] + [OneEntry("k")]), "S", "x.k")
  {
    EntryIsTyped(REPEATED, "Env", "k", X);
    RepeatedIsAsked();
    RepeatedIsRefused();
    AskedIsSeen(REPEATED, Struct("S", "", [X] + [OneEntry("k")]), "S", "x.k");
  }

  lemma DottedKeyLeads()
    ensures Accepts(ENVS, Some(Named("Envs")), "a.b")
  {
    SplitTwo("a", "b");
    NameIsSegment("b", false);
    assert "a" + "." + "b" == "a.b";
    assert Step(ENVS, Named("Envs"), "a") == Some(Named("Env")) && Step(ENVS, Named("Env"), "b") == Some(Named("string"));
    var segs := ["a"] + ["b"];
    assert segs[1..] == ["b"] && segs[1..][1..] == [];
    assert Leads(ENVS, Named("Env"), segs[1..]);
    assert Leads(ENVS, Named("Envs"), segs);
  }

  lemma DottedKeyAsks(v: Value)
    requires v == GoMap("Envs", "", [Entry("a.b", GoMap("Env", "", []))])
    ensures PathsAsked(Bare(ENVS), v) == {"", "a.b"}
  {
    var inner := GoMap("Env", "", []);
    SectionAsks(Bare(ENVS), v, "");
    OneEntryAsks(Bare(ENVS), "Envs", "a.b", inner, "");
    SectionAsks(Bare(ENVS), inner, "a.b");
    assert ItemsOfEntries(EntriesOf(inner)) == [];
    assert MembersAsk(Bare(ENVS), inner, "a.b") == {};
  }

  /** And a name need not be good: over maps of maps the check takes the key "a.b" for two, and accepts
      all that is asked for. */
  lemma DottedKeyIsAccepted()
    ensures var v := GoMap("Envs", "", [Entry("a.b", GoMap("Env", "", []))]);
      HasType(ENVS, v, Named("Envs")) && !GoodKeys(v) && AcceptsAllAsked(Bare(ENVS), v, Some(Named("Envs")))
  {
    var inner := GoMap("Env", "", []);
    var v := GoMap("Envs", "", [Entry("a.b", inner)]);
    EntryIsTyped(ENVS, "Envs", "a.b", inner);
    DottedKeyAsks(v);
    DottedKeyLeads();
    assert "a.b"[1] == '.' && v.entries[0].key == "a.b";
  }
}

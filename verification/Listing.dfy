/** The --global task listing (cmd/taskloom/scope.go and renderGlobalTaskTable in commands.go): every
    project's matching tasks filtered, counted, sorted, capped and printed under project headings.

    Nothing may vanish on the way without being accounted for. */
module Listing {
  import opened Base

  datatype Status = Deferred | Other(name: string)

  /** A task the store matched; checked is set for the finished statuses. */
  datatype Task = Task(harp: string, status: Status, checked: bool, priority: real)

  datatype Row = Row(task: Task, project: string)

  datatype Store = Store(project: string, matching: seq<Task>)

  // ---- the default view -------------------------------------------------------------------------------------

  predicate Active(t: Task) { !t.checked && !t.status.Deferred? }

  datatype Filtered = Filtered(visible: seq<Task>, completed: nat, deferred: nat)

  method FilterActiveDefault(list: seq<Task>, includeDone: bool, statuses: nat) returns (f: Filtered)
    ensures includeDone || statuses > 0 ==> f == Filtered(list, 0, 0)
    ensures !includeDone && statuses == 0 ==>
              && f.visible == Filter(Active, list)
              && f.completed == |Filter(Completed, list)|
              && f.deferred == |Filter(OnlyDeferred, list)|
    ensures |f.visible| + f.completed + f.deferred == |list|
  {
    if includeDone || statuses > 0 {
      return Filtered(list, 0, 0);
    }
    f := Filtered([], 0, 0);
    for i := 0 to |list|
      invariant f.visible == Filter(Active, list[..i])
      invariant f.completed == |Filter(Completed, list[..i])|
      invariant f.deferred == |Filter(OnlyDeferred, list[..i])|
      invariant |f.visible| + f.completed + f.deferred == i
    {
      var t := list[i];
      assert list[..i + 1] == list[..i] + [t];
      FilterAppend(Active, list[..i], t);
      FilterAppend(Completed, list[..i], t);
      FilterAppend(OnlyDeferred, list[..i], t);
      if t.checked {
        f := f.(completed := f.completed + 1);
      } else if t.status.Deferred? {
        f := f.(deferred := f.deferred + 1);
      } else {
        f := f.(visible := f.visible + [t]);
      }
    }
    assert list[..|list|] == list;
  }

  predicate Completed(t: Task) { t.checked }

  predicate OnlyDeferred(t: Task) { !t.checked && t.status.Deferred? }

  /** How many places of s hold an element that keep takes. */
  ghost function Places<T>(keep: T -> bool, s: seq<T>): nat { |set i | 0 <= i < |s| && keep(s[i])| }

  lemma PlaceAdded<T>(keep: T -> bool, s: seq<T>)
    requires s != []
    ensures Places(keep, s) == Places(keep, s[..|s| - 1]) + if keep(s[|s| - 1]) then 1 else 0
  {
    var k := |s| - 1;
    var front := set i | 0 <= i < k && keep(s[..k][i]);
    assert (set i | 0 <= i < |s| && keep(s[i])) == front + if keep(s[k]) then {k} else {};
  }

  lemma {:induction false} FilterLength<T>(keep: T -> bool, s: seq<T>)
    ensures |Filter(keep, s)| == Places(keep, s)
  {
    if s != [] {
      var k := |s| - 1;
      FilterLength(keep, s[..k]);
      FilterAppend(keep, s[..k], s[k]);
      assert s == s[..k] + [s[k]];
      PlaceAdded(keep, s);
    }
  }

  lemma PlacesOf<T>(keep: T -> bool, s: seq<T>, places: set<int>)
    requires forall i :: i in places <==> 0 <= i < |s| && keep(s[i])
    ensures |Filter(keep, s)| == |places|
  {
    FilterLength(keep, s);
    assert places == set i | 0 <= i < |s| && keep(s[i]);
  }

  /** The default view keeps each task that is neither finished nor deferred as often as it is listed; of
      the others a finished one counts as completed, deferred or not. */
  lemma DefaultView(list: seq<Task>, t: Task)
    ensures multiset(Filter(Active, list))[t] == if t.checked || t.status == Deferred then 0 else multiset(list)[t]
    ensures |Filter(Completed, list)| == |set i | 0 <= i < |list| && list[i].checked|
    ensures |Filter(OnlyDeferred, list)| == |set i | 0 <= i < |list| && !list[i].checked && list[i].status == Deferred|
  {
    FilterCount(Active, list, t);
    var done := set i | 0 <= i < |list| && list[i].checked;
    var later := set i | 0 <= i < |list| && !list[i].checked && list[i].status == Deferred;
    PlacesOf(Completed, list, done);
    PlacesOf(OnlyDeferred, list, later);
  }

  // ---- order ------------------------------------------------------------------------------------------------

  /** By project; within one by priority, highest first, or by harp. */
  predicate ByPriority(a: Row, b: Row) {
    if a.project != b.project then StringLess(a.project, b.project) else a.task.priority > b.task.priority
  }

  predicate ByHarp(a: Row, b: Row) {
    if a.project != b.project then StringLess(a.project, b.project) else StringLess(a.task.harp, b.task.harp)
  }

  function Order(byPriority: bool): (Row, Row) -> bool {
    if byPriority then ByPriority else ByHarp
  }

  lemma OrdersAreWeak(byPriority: bool)
    ensures WeakOrder(Order(byPriority))
  {
    StringLessStrictTotal();
    forall a: Row, b: Row, c: Row | Order(byPriority)(a, c) ensures Order(byPriority)(a, b) || Order(byPriority)(b, c) {
      assert a.project == b.project || StringLess(a.project, b.project) || StringLess(b.project, a.project);
      assert StringLess(a.project, c.project) ==> StringLess(a.project, b.project) || StringLess(b.project, c.project);
      assert StringLess(a.task.harp, c.task.harp) ==>
               StringLess(a.task.harp, b.task.harp) || StringLess(b.task.harp, c.task.harp);
    }
  }

  /** What the orders are for: projects come in ascending order, and the rows of one project by falling
      priority, or by rising harp. */
  lemma SortedForReading(rows: seq<Row>, byPriority: bool, i: nat, j: nat)
    requires i < j < |Sort(Order(byPriority), rows)|
    ensures var a, b := Sort(Order(byPriority), rows)[i], Sort(Order(byPriority), rows)[j];
      && (a.project == b.project || StringLess(a.project, b.project))
      && (a.project == b.project && byPriority ==> a.task.priority >= b.task.priority)
      && (a.project == b.project && !byPriority ==> a.task.harp == b.task.harp || StringLess(a.task.harp, b.task.harp))
  {
    OrdersAreWeak(byPriority);
    SortSorts(Order(byPriority), rows);
    StringLessStrictTotal();
    var a, b := Sort(Order(byPriority), rows)[i], Sort(Order(byPriority), rows)[j];
    assert !Order(byPriority)(b, a);
    StringLessTotal(a.project, b.project);
    StringLessTotal(a.task.harp, b.task.harp);
  }

  /** Equal under the order: neither comes before the other. */
  function Ties<T>(less: (T, T) -> bool, x: T): T -> bool {
    y => !less(x, y) && !less(y, x)
  }

  lemma {:induction false} InsertIsStable<T(!new)>(less: (T, T) -> bool, y: T, s: seq<T>, x: T)
    requires WeakOrder(less)
    ensures Filter(Ties(less, x), Insert(less, y, s)) == Filter(Ties(less, x), [y] + s)
  {
    var tie := Ties(less, x);
    assert ([y] + s)[1..] == s;
    if s == [] || !less(s[0], y) {
    } else {
      InsertIsStable(less, y, s[1..], x);
      assert ([y] + s[1..])[1..] == s[1..];
      assert ([s[0]] + Insert(less, y, s[1..]))[1..] == Insert(less, y, s[1..]);
      assert !(tie(y) && tie(s[0])) by {
        assert less(s[0], y) ==> less(s[0], x) || less(x, y);
      }
    }
  }

  /** Sorting keeps the order of elements that tie. */
  lemma {:induction false} SortIsStable<T(!new)>(less: (T, T) -> bool, s: seq<T>, x: T)
    requires WeakOrder(less)
    ensures Filter(Ties(less, x), Sort(less, s)) == Filter(Ties(less, x), s)
  {
    if s != [] {
      SortIsStable(less, s[1..], x);
      InsertIsStable(less, s[0], Sort(less, s[1..]), x);
      assert ([s[0]] + Sort(less, s[1..]))[1..] == Sort(less, s[1..]);
    }
  }

  // ---- the listing --------------------------------------------------------------------------------------------

  datatype Result = Listed(rows: seq<Row>, projects: nat, completed: nat, deferred: nat, omitted: nat)

  function Tagged(project: string): Task -> Row { t => Row(t, project) }

  /** The rows the default view lets through, store after store. */
  function VisibleRows(stores: seq<Store>, all: bool): seq<Row> {
    if stores == [] then []
    else
      var last := stores[|stores| - 1];
      VisibleRows(stores[..|stores| - 1], all)
      + Map(Tagged(last.project), if all then last.matching else Filter(Active, last.matching))
  }

  function Matching(stores: seq<Store>): nat {
    if stores == [] then 0 else Matching(stores[..|stores| - 1]) + |stores[|stores| - 1].matching|
  }

  /** The store's project has the row's task among those it matched, and the view lets it through. */
  ghost predicate Shows(store: Store, all: bool, row: Row) {
    store.project == row.project && row.task in store.matching && (all || (!row.task.checked && row.task.status != Deferred))
  }

  lemma StoreShows(store: Store, all: bool, row: Row)
    ensures row in Map(Tagged(store.project), if all then store.matching else Filter(Active, store.matching))
       <==> Shows(store, all, row)
  {
    var shown := if all then store.matching else Filter(Active, store.matching);
    FilterCount(Active, store.matching, row.task);
    assert row.task in shown <==> row.task in multiset(shown);
    assert row.task in store.matching <==> row.task in multiset(store.matching);
    if row.project == store.project && row.task in shown {
      var j :| 0 <= j < |shown| && shown[j] == row.task;
      assert Map(Tagged(store.project), shown)[j] == row;
    }
  }

  ghost predicate SomeShows(stores: seq<Store>, all: bool, row: Row) {
    exists i :: 0 <= i < |stores| && Shows(stores[i], all, row)
  }

  lemma SomeOfOneMore(front: seq<Store>, last: Store, all: bool, row: Row)
    ensures SomeShows(front + [last], all, row) <==> SomeShows(front, all, row) || Shows(last, all, row)
  {
    var stores := front + [last];
    assert stores[|front|] == last && forall i | 0 <= i < |front| :: stores[i] == front[i];
  }

  /** A row is shown exactly when some store shows it. */
  lemma {:induction false} ShownExactly(stores: seq<Store>, all: bool, row: Row)
    ensures row in VisibleRows(stores, all) <==> SomeShows(stores, all, row)
  {
    if stores != [] {
      var front, last := stores[..|stores| - 1], stores[|stores| - 1];
      ShownExactly(front, all, row);
      StoreShows(last, all, row);
      SomeOfOneMore(front, last, all, row);
      assert stores == front + [last];
    }
  }

  /** How many of all the stores' tasks keep takes. */
  function Tallied(keep: Task -> bool, stores: seq<Store>): nat {
    if stores == [] then 0
    else Tallied(keep, stores[..|stores| - 1]) + |Filter(keep, stores[|stores| - 1].matching)|
  }

  method CapRows(rows: seq<Row>, limit: int) returns (capped: seq<Row>, omitted: nat)
    ensures capped <= rows && |capped| + omitted == |rows|
    ensures limit <= 0 ==> omitted == 0
    ensures limit > 0 ==> |capped| == if |rows| <= limit then |rows| else limit
  {
    if limit <= 0 || |rows| <= limit {
      return rows, 0;
    }
    return rows[..limit], |rows| - limit;
  }

  /** Every matching task is a row, omitted by the limit, or counted hidden; and the rows are a prefix
      of the stable order of all that is visible. */
  method ListAllProjects(stores: seq<Store>, includeDone: bool, statuses: nat, byPriority: bool, limit: int)
    returns (r: Result)
    ensures r.projects == |stores|
    ensures |r.rows| + r.omitted + r.completed + r.deferred == Matching(stores)
    ensures r.rows <= Sort(Order(byPriority), VisibleRows(stores, includeDone || statuses > 0))
    ensures includeDone || statuses > 0 ==> r.completed == r.deferred == 0
    ensures !includeDone && statuses == 0 ==>
              r.completed == Tallied(Completed, stores) && r.deferred == Tallied(OnlyDeferred, stores)
    ensures if limit <= 0 then r.omitted == 0 else |r.rows| <= limit && (r.omitted > 0 ==> |r.rows| == limit)
  {
    var rows: seq<Row> := [];
    var completed, deferred := 0, 0;
    ghost var all := includeDone || statuses > 0;
    for i := 0 to |stores|
      invariant rows == VisibleRows(stores[..i], all)
      invariant completed >= 0 && deferred >= 0
      invariant |rows| + completed + deferred == Matching(stores[..i])
      invariant all ==> completed == deferred == 0
      invariant !all ==> completed == Tallied(Completed, stores[..i]) && deferred == Tallied(OnlyDeferred, stores[..i])
    {
      assert stores[..i + 1][..i] == stores[..i];
      var p := FilterActiveDefault(stores[i].matching, includeDone, statuses);
      completed, deferred := completed + p.completed, deferred + p.deferred;
      rows := AppendTagged(rows, p.visible, stores[i].project);
    }
    assert stores[..|stores|] == stores;
    SortPermutes(Order(byPriority), rows);
    var sorted := Sort(Order(byPriority), rows);
    var capped, omitted := CapRows(sorted, limit);
    r := Listed(capped, |stores|, completed, deferred, omitted);
  }

  /** listAllProjects' inner loop. */
  method AppendTagged(rows: seq<Row>, tasks: seq<Task>, project: string) returns (more: seq<Row>)
    ensures more == rows + Map(Tagged(project), tasks)
  {
    more := rows;
    for i := 0 to |tasks|
      invariant more == rows + Map(Tagged(project), tasks[..i])
    {
      assert tasks[..i + 1] == tasks[..i] + [tasks[i]];
      MapConcat(Tagged(project), tasks[..i], [tasks[i]]);
      more := more + [Row(tasks[i], project)];
    }
    assert tasks[..|tasks|] == tasks;
  }

  // ---- printing under headings ----------------------------------------------------------------------------------

  datatype Section = Section(project: string, tasks: seq<Task>)

  function RowsOf(s: Section): seq<Row> { Map(Tagged(s.project), s.tasks) }

  /** The rows sections print, in order. */
  function Printed(sections: seq<Section>): seq<Row> {
    if sections == [] then [] else Printed(sections[..|sections| - 1]) + RowsOf(sections[|sections| - 1])
  }

  /** Rows of one project stand together. */
  ghost predicate Grouped(rows: seq<Row>) {
    forall i, j, k | 0 <= i < j < k < |rows| && rows[i].project == rows[k].project :: rows[j].project == rows[i].project
  }

  /** The sections print the first start rows, and each of their projects is the project of one. */
  ghost predicate PrintedTo(rows: seq<Row>, start: nat, sections: seq<Section>)
    requires start <= |rows|
  {
    && Printed(sections) == rows[..start]
    && (forall s | 0 <= s < |sections| ::
          sections[s].tasks != [] && exists j :: 0 <= j < start && rows[j].project == sections[s].project)
  }

  ghost predicate DistinctHeadings(sections: seq<Section>) {
    forall i, j | 0 <= i < j < |sections| :: sections[i].project != sections[j].project
  }

  /** One more group of rows printed under its own heading. */
  lemma OneMoreSection(rows: seq<Row>, start: nat, end: nat, sections: seq<Section>, next: Section)
    requires start < end <= |rows| && PrintedTo(rows, start, sections)
    requires RowsOf(next) == rows[start..end] && next.project == rows[start].project
    ensures PrintedTo(rows, end, sections + [next])
  {
    var more := sections + [next];
    assert more[..|more| - 1] == sections;
    assert rows[..end] == rows[..start] + rows[start..end];
    assert Printed(more) == rows[..end];
    assert next.tasks != [] by {
      assert |next.tasks| == |RowsOf(next)|;
    }
    forall s | 0 <= s < |more|
      ensures more[s].tasks != [] && exists j :: 0 <= j < end && rows[j].project == more[s].project
    {
      if s < |sections| {
        var j :| 0 <= j < start && rows[j].project == sections[s].project;
        assert 0 <= j < end && rows[j].project == more[s].project;
      } else {
        assert 0 <= start < end && rows[start].project == more[s].project;
      }
    }
  }

  /** A project whose group has just begun heads no earlier section. */
  lemma HeadingIsNew(rows: seq<Row>, start: nat, sections: seq<Section>, next: Section)
    requires start < |rows| && PrintedTo(rows, start, sections) && Grouped(rows) && DistinctHeadings(sections)
    requires next.project == rows[start].project
    requires start > 0 ==> rows[start - 1].project != rows[start].project
    ensures DistinctHeadings(sections + [next])
  {
    forall s | 0 <= s < |sections| ensures sections[s].project != next.project {
      var j :| 0 <= j < start && rows[j].project == sections[s].project;
    }
  }

  /** The sections concatenate to the rows; none is empty; and rows that are grouped put each project
      under exactly one heading. */
  method RenderGlobalTaskTable(rows: seq<Row>) returns (sections: seq<Section>)
    ensures Printed(sections) == rows
    ensures forall i | 0 <= i < |sections| :: sections[i].tasks != []
    ensures Grouped(rows) ==> DistinctHeadings(sections)
  {
    sections := [];
    if |rows| == 0 {
      return;
    }
    var start := 0;
    for i := 1 to |rows| + 1
      invariant 0 <= start <= |rows| && start < i && (start == |rows| <==> i == |rows| + 1)
      invariant GroupOpen(rows, start, i)
      invariant PrintedTo(rows, start, sections)
      invariant Grouped(rows) ==> DistinctHeadings(sections)
    {
      if i < |rows| && rows[i].project == rows[start].project {
        continue;
      }
      sections := Flush(rows, start, i, sections);
      start := i;
    }
    assert rows[..|rows|] == rows;
  }

  /** The rows from start up to i are one project's, and the row before them is not. */
  ghost predicate GroupOpen(rows: seq<Row>, start: nat, i: nat) {
    && (forall j | start <= j < i && j < |rows| :: rows[j].project == rows[start].project)
    && (0 < start < |rows| ==> rows[start - 1].project != rows[start].project)
  }

  /** Ends the group of rows from start to end: prints it under its project. */
  method Flush(rows: seq<Row>, start: nat, end: nat, sections: seq<Section>) returns (more: seq<Section>)
    requires start < end <= |rows| && PrintedTo(rows, start, sections) && GroupOpen(rows, start, end)
    ensures PrintedTo(rows, end, more)
    ensures Grouped(rows) && DistinctHeadings(sections) ==> DistinctHeadings(more)
  {
    var plain := PlainTasks(rows[start..end], rows[start].project);
    var next := Section(rows[start].project, plain);
    OneMoreSection(rows, start, end, sections, next);
    if Grouped(rows) && DistinctHeadings(sections) {
      HeadingIsNew(rows, start, sections, next);
    }
    more := sections + [next];
  }

  /** The tasks of a group of rows that all name project. */
  method PlainTasks(group: seq<Row>, project: string) returns (plain: seq<Task>)
    requires forall j | 0 <= j < |group| :: group[j].project == project
    ensures |plain| == |group| && Map(Tagged(project), plain) == group
  {
    plain := [];
    for j := 0 to |group|
      invariant Map(Tagged(project), plain) == group[..j]
    {
      assert group[..j + 1] == group[..j] + [group[j]];
      MapConcat(Tagged(project), plain, [group[j].task]);
      assert Row(group[j].task, project) == group[j];
      plain := plain + [group[j].task];
    }
    assert group[..|group|] == group;
  }

  /** The listing's rows are grouped, so its rendering heads each project exactly once. */
  lemma ListingIsGrouped(rows: seq<Row>, byPriority: bool, prefix: seq<Row>)
    requires prefix <= Sort(Order(byPriority), rows)
    ensures Grouped(prefix)
  {
    var sorted := Sort(Order(byPriority), rows);
    OrdersAreWeak(byPriority);
    SortSorts(Order(byPriority), rows);
    StringLessStrictTotal();
    forall i, j, k | 0 <= i < j < k < |prefix| && prefix[i].project == prefix[k].project
      ensures prefix[j].project == prefix[i].project
    {
      var a, b, c := sorted[i], sorted[j], sorted[k];
      assert !Order(byPriority)(b, a) && !Order(byPriority)(c, b);
      assert a.project == b.project || StringLess(a.project, b.project) || StringLess(b.project, a.project);
    }
  }
}

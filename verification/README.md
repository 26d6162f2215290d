# Proofs about ctxloom

This project models the parts of ctxloom whose correctness is hardest to see from any one function, and
proves what each is for. Check it with `dafny verify dfyconfig.toml`.

| file | what it covers |
|---|---|
| `Base.dfy` | sequences, sums, sorting, splitting and joining text, decimal numbers |
| `Plan.dfy` | the shard plan of a mutation run: a greedy schedule, its determinism, its distance from the best one |
| `Tight.dfy` | for any number of shards, a run on which that distance is reached |
| `Judge.dfy` | the verdict over the shards' reports, equal to the verdict of an unsharded run |
| `Gate.dfy` | that verdict, and every refusal, told by the numbers of records alone |
| `Ratchet.dfy` | the text baseline that run is held to, read back after it is written |
| `NilSlices.dfy` | the copy that empties nil slices, over heaps with pointer and map cycles |
| `Docs.dfy`, `Maps.dfy`, `Derive.dfy`, `Walk.dfy` | the walk that derives a value's human view, as functions and as the loops that run |
| `Shows.dfy` | what that view says of a value of each kind, with no view in the way and with one |
| `Asked.dfy`, `Paths.dfy`, `Decorate.dfy` | the paths that walk asks its views for; when the path check refuses only inert ones; when decorating is transparent |
| `Marshal.dfy` | the ordered decoder behind yaml and toml output |
| `Markdown.dfy` | the markdown writer: its text block by block, in which every value stands and tables survive any cell text |
| `Presenter.dfy`, `PresenterRuns.dfy` | the approval presenter: its handlers, then every run of it beside a changing queue |
| `Bells.dfy` | what each of its steps does to the bell, the summon and its memory; how often a request can ring |
| `Summons.dfy` | the presenter's summons that outlive their reason: which steps leave one, which end it |
| `Credential.dfy` | the credential notice, polled and expiring |
| `Attach.dfy` | teardown of a container attach, over every interleaving of its callers |
| `Winsize.dfy` | the one-slot, latest-wins resize channel |
| `Shell.dfy` | the prune command printed to be pasted back |
| `Listing.dfy` | the `--global` task listing, which accounts for every task |

Code that changes state is modelled as methods and classes, each proved equal to a function of the old
state; what the code is for is then proved about those functions, or about a transition system whose
steps they are. A protocol's theorems hold of every finite run, from any state a run can start in.

## What the proofs found

- A request that arrives already inside its deadline warning is meant to be summoned for once. When a
  tick sees it before its arrival event is handled, it is summoned for twice:
  `PresenterRuns.EarlyTickSummonsTwice` is such a run, and `PresenterRuns.ShortRequestWarnedIffMarkedFirst`
  says that this is the only way.
- A queue event that finds a subscriber's channel full is dropped. A request whose arrival is dropped is
  never presented and never summoned for as new, however the run goes on
  (`PresenterRuns.DroppedArrivalIsMissed`); the one summon it can still cause is its deadline warning, at
  the first look a tick takes at it inside the warning (`PresenterRuns.MissedIsOnlyWarned`). Parking one
  request more than the channel holds is such a run: `PresenterRuns.OneTooMany`.
- A summon is meant to be in flight only while something is pending or a resolution is still to be heard.
  Exactly two kinds of step leave one without a reason (`Summons.StepMakesStale`): the loss of the last
  resolution to a full channel (`Summons.StaleSummon` is such a run), and a tick's look at a request of
  its snapshot that is gone by then, its resolution lost (`Summons.TickSummonsTooLate`). Over any run one
  is left so if and only if such a step occurs and no return of a summon and no new request comes after it
  (`Summons.StaleExactly`). The panel repairs itself at the next tick whatever was dropped
  (`PresenterRuns.TickRepairsPanel`).
- The credential notice is meant never to lapse while a hold is in force. The panel has one note line, and
  any other note replaces the notice, which a poll does not set again until its refresh is due:
  `Credential.TimedOutNoteHidesNotice`. Within the margin the line reads the notice if and only if no
  other note was set since (`Credential.NoticeShowsExactly`), and `Credential.NoticeComesBackExactly` says
  which poll brings it back.
- The copy that empties nil slices misses one promoted through an embedded unexported struct
  (`NilSlices.EmbeddedFieldIsMissed`) and one behind a pointer whose address is its container's
  (`NilSlices.SharedAddressIsMissed`), and uncovers one that omitzero had left out
  (`NilSlices.OmittedFieldIsUncovered`). `NilSlices.CopyEncodesWithoutNulls` and the theorems beside it
  each hold if and only if the walk of the input meets no such place;
  `NilSlices.TamePayloadsEncodeWithoutNulls` names the payloads that have none.
- Where a second pass over the copy was meant to change nothing, it reaches what a shared address hid from
  the first: `NilSlices.SharedAddressIsReachedSecond`. `NilSlices.EmptyingTwice` says exactly when, read off
  the input: some reference the first pass kept, because its address was on the path, leads to a nil slice
  that a walk from there reaches. With addresses of their own there is none:
  `NilSlices.EmptyingTwiceChangesNothing`.
- A refused path need not be inert. For any value it is so for all refused paths if and only if the check
  accepts every path the walk asks for in that value (`Paths.RefusedPathsInertExactly`). Field names and map
  keys without dots and brackets, not empty and not repeated, are enough (`Paths.GoodNamesAreAccepted`) and
  not needed (`Paths.DottedKeyIsAccepted`). Without them it fails at a map key below the root that is empty
  (`Paths.NestedEmptyKeyIsRefused`), at a field tagged "a.b" (`Paths.DottedFieldIsRefused`), below the second
  of two fields of one name (`Paths.RepeatedNameIsRefused`), and over a map of strings at any key with a dot
  or a bracket (`Paths.RefusedInertExactlyForGoodKeys`).
- A view that only hands on what it is given is transparent at a list's element path if and only if the
  list's elements are not shown as the rows of a table: `Decorate.ElementPathTransparentExactly`. A view
  above it that looks into the errors it is handed can also tell that it is there:
  `Decorate.ErrorWatchersAreNotTransparent`.
- A baseline row can be recorded and read back if and only if its target is one field that does not read
  as a comment: `Ratchet.RecordingChangesOneRow`.
- The prune report's command survives the shell, always; but each `--status` value is then read as
  comma-separated values, so a status with a comma, a double quote or a newline, or one ending in a
  carriage return, is not the status that was reported. `Shell.PastedCommandSelectsTheSame` gives the
  exact condition.

## Model

| member | source | states |
|---|---|---|
| `Plan.Assign` | scripts/mutshard/plan.go:101-125 | the scheduler's in-place loops leave in the array exactly the plan that the lemmas below speak of |
| `Plan.DealOut` | scripts/mutshard/plan.go:109-120 | every candidate, in sorted order, goes onto the shard least loaded at that moment |
| `Plan.LeastLoadedIndex` | scripts/mutshard/plan.go:112-117 | the first index of the smallest load |
| `Plan.DealtInOrder` | scripts/mutshard/plan.go:101-108 | candidates are dealt by falling cost, and at one cost by rising path |
| `Plan.SortEach` | scripts/mutshard/plan.go:121-123 | each shard's paths are sorted where they stand |
| `Plan.PlanIgnoresOrder` | scripts/mutshard/plan.go:97-108 | the plan depends only on which candidates there are, not on the order they come in |
| `Plan.PlanIsPartition` | scripts/mutshard/plan.go:109-124 | the shards together list every candidate's path exactly as often as it was given, each shard sorted |
| `Plan.EveryPathOnExactlyOneShard` | scripts/mutshard/plan.go:109-124 | for distinct paths, a path is a candidate's if and only if some shard lists it; no two shards share one and no shard repeats one |
| `Plan.PlanKeepsCost` | scripts/mutshard/plan.go:110-119 | what the shards cost adds up to what the candidates cost |
| `Plan.LeastLoadAverage` | scripts/mutshard/plan.go:111-120 | n times the least load plus the next candidate's cost is at most n times the largest load of any schedule |
| `Plan.LeastLoadFits` | scripts/mutshard/plan.go:101-120 | when three candidates as costly as the next one exceed some schedule's largest load, the next one still fits under that load on the least-loaded shard |
| `Plan.PlanIsNearlyOptimal` | scripts/mutshard/plan.go:97-125 | Graham's bound: 3n times the plan's slowest shard is at most (4n - 1) times the slowest shard of any other split of the same packages over n shards |
| `Tight.BoundIsTight` | scripts/mutshard/plan.go:97-125 | for every n a family of 2n + 1 candidates on which the plan's slowest shard costs 4n - 1 and another split's 3n, so that the bound is met with equality |
| `Plan.MakePlan` | scripts/mutshard/plan.go:275-308 | n < 1 is refused; a scope that is no tree and whose base is empty or forty zeros names no work; one with no candidate at its package, or at a path that is the package, a slash and more, has nothing mutable; both skip with n empty shards; otherwise the plan of exactly those candidates |
| `Plan.CoveredExactly` | scripts/mutshard/plan.go:76-80 | a candidate is kept, as often as it occurs, if and only if no package is named, its path is the package, or it is the package, a slash and more |
| `Plan.CoversOnlyBelow` | scripts/mutshard/plan.go:76-80 | a scope never takes in a sibling that only shares its package's prefix |
| `Judge.Count` | scripts/mutshard/judge.go:277-301 | a record is counted under its own status, and refused exactly when it names no file or has no finished status |
| `Judge.ShardTally` | scripts/mutshard/judge.go:247-274 | a shard's raw report becomes the counts of its records, or the first reason it cannot be vouched for |
| `Judge.TallyFiles` | scripts/mutshard/judge.go:261-272 | the nested loops stop at the first faulty record of all files in order, or count every one |
| `Judge.VetShard` | scripts/mutshard/judge.go:208-220 | a report is held to the plan and the run's stamp before it is tallied; a shard given nothing counts nothing |
| `Judge.IndexReports` | scripts/mutshard/judge.go:192-204 | the map holds each shard's one report, or the first report that is foreign, duplicated or out of range is the reason |
| `Judge.JudgeUnion` | scripts/mutshard/judge.go:165-188 | the loop reaches exactly the verdict and counts that the lemmas below speak of |
| `Judge.VettedSound` | scripts/mutshard/judge.go:208-274 | a shard's report is accepted if and only if it is sound: right stamp, right packages, readable, no fault in any record, counters that agree; and then its counts are those of its records |
| `Judge.JudgedExactly` | scripts/mutshard/judge.go:151-188 | a verdict is reached if and only if there is exactly one sound report per shard; it is then the verdict over every record, each counted once |
| `Gate.VerdictOverRecords` | scripts/mutshard/judge.go:88-131 | with every report vouched for, the counts are the numbers of records of each status; the verdict is efficacy if and only if its threshold is set and 100 times the killed is at most the threshold times the killed and lived; else coverage, of those and the uncovered alike; else none; and none when some shard had work and nothing was killed or lived |
| `Gate.AcceptedExactly` | scripts/mutshard/judge.go:208-313 | a report is accepted if and only if it is stamped for the run and, given packages, is readable, each record names a file of one of them and is finished, and each counter is the number of records of its status |
| `Gate.RefusedFor` | scripts/mutshard/judge.go:208-301 | why a report is refused: its stamp, nothing carried, nothing readable, the first record that cannot be counted, or its counters, in that order |
| `Gate.MisfitDecides` | scripts/mutshard/judge.go:192-204 | the first report of another cut, out of range or second for its shard decides, before any shard is judged |
| `Gate.LowestShardDecides` | scripts/mutshard/judge.go:165-188 | otherwise the lowest shard without a report, or whose own is refused, decides |
| `Gate.FileBeforeColon` | scripts/mutshard/judge.go:60-70 | a mutant's file is its id up to the first colon, or all of it |
| `Judge.OwnerOfPackageFile` | scripts/mutshard/judge.go:247-274 | a file directly in a package is owned by that package, by the path rules the leak test uses |
| `Judge.OwnerOfRootFile` | scripts/mutshard/judge.go:247-274 | a bare file is owned by the root package |
| `Judge.OwnerOfAbsoluteFile` | scripts/mutshard/judge.go:247-274 | a file named from the root of the file system is owned by no package of the module: its directory keeps the leading slash |
| `Gate.UpUndoesDown` | scripts/mutshard/judge.go:247-274 | in a mutant's path a step up takes back the step down before it |
| `Gate.IdleSegments` | scripts/mutshard/judge.go:247-274 | and empty and "." segments make no difference |
| `Judge.RunHoldsRecords` | scripts/mutshard/judge.go:151-188 | the reports of a run hold each record of the run exactly once between them |
| `Judge.ShardingPreservesVerdict` | scripts/mutshard/judge.go:151-188 | for any candidates, any n and the reports in any order, the counts and the verdict are those of the same records judged as one shard |
| `Ratchet.ReadBaseline` | scripts/mutshard/ratchet.go:54-75 | the loop reads the rows of a file, or stops at the first line that is no row |
| `Ratchet.RowsExactly` | scripts/mutshard/ratchet.go:54-75 | a file is read if and only if every line that has a field and is no comment is a row, and no two name one target; its rows are then what those lines say |
| `Ratchet.RefusedForFirst` | scripts/mutshard/ratchet.go:60-73 | otherwise it is refused for its first bad line: for what is wrong with the row, or as a second row of its target |
| `Ratchet.RowReadExactly` | scripts/mutshard/ratchet.go:79-109 | four fields are a row if and only if they end in "unknown" after two dashes, or in "measured" or "stale" after whole numbers with no more survivors than mutants |
| `Ratchet.RowRefusedFor` | scripts/mutshard/ratchet.go:79-109 | what is wrong with a line that is no row |
| `Ratchet.FieldsAreWords` | scripts/mutshard/ratchet.go:61 | whatever white space stands between, before and after the words of a line, its fields are those words |
| `Ratchet.TrimExactly` | scripts/mutshard/ratchet.go:168 | all newlines at the end of the file are dropped, and nothing else |
| `Ratchet.WriteRow` | scripts/mutshard/ratchet.go:160-194 | the text written is the file with the target's row put in or added |
| `Ratchet.ReplaceRow` | scripts/mutshard/ratchet.go:170-180 | in place, exactly the lines that hold the target's row are overwritten, and it is known whether there was one |
| `Ratchet.RowLineParses` | scripts/mutshard/ratchet.go:79-109 | a row as it is laid out, whatever its padding, parses back to its counts |
| `Ratchet.WrittenLines` | scripts/mutshard/ratchet.go:160-194 | line by line, the new file is the old one up to its trailing newlines with only the target's row replaced, or one line added |
| `Ratchet.RecordingChangesOneRow` | scripts/mutshard/ratchet.go:54-194 | recording keeps a readable file readable and changes its map of rows at the target alone, if and only if the target is not empty, holds no white space and does not start with "#" |
| `Ratchet.RecordedRunHolds` | scripts/mutshard/ratchet.go:114-148 | a run just recorded holds against the recorded file if and only if its target is such a one; from then on exactly the runs with more survivors regress, and no other target's outcome changes |
| `Ratchet.CheckedExactly` | scripts/mutshard/ratchet.go:114-148 | the outcome in numbers: nothing measured if and only if no mutant could be judged; then no row, no counts, and else regressed, improved or held as lived and uncovered together exceed, fall below or equal the row's survivors |
| `NilSlices.Emptier.Empty` | pkg/clifmt/nilslices.go:51-147 | the recursive copy terminates on every finite heap, returns the specified copy, and leaves the path of addresses as it found it; objects may share an address |
| `NilSlices.CopyEncodesWithoutNulls` | pkg/clifmt/nilslices.go:9-36 | the copy encodes as the input would if nil slices were written as empty lists, if and only if the walk reaches every nil slice the encoder writes and no field omitzero leaves out is zero only by a nil slice it reaches there, or nothing encodes |
| `NilSlices.EmptiedEncodes` | pkg/clifmt/nilslices.go:51-147 | what the copy encodes as, for every payload: lists where the walk reaches a nil slice, and as it was below a field it cannot set or an address on its path |
| `NilSlices.InputIsKept` | pkg/clifmt/nilslices.go:30-31 | no existing object is written to, and the copy encodes exactly when the input does: a cycle stays an error |
| `NilSlices.TamePayloadsEncodeWithoutNulls` | pkg/clifmt/nilslices.go:9-36 | the promise holds of every payload whose objects have addresses of their own, whose seen fields can all be set and whose omitzero fields hold no nil slice |
| `NilSlices.NoNilSliceLeft` | pkg/clifmt/nilslices.go:9-36 | the copy's encoding does not depend on how the encoder would write a nil slice, if and only if the walk misses none that is written |
| `NilSlices.EmptyingTwice` | pkg/clifmt/nilslices.go:51-83 | read off the input: a second pass changes nothing that is written if and only if every reference the first pass kept as it was, its address being on the path, leads a walk from there to no nil slice; copies have addresses of their own |
| `NilSlices.EmptyingTwiceChangesNothing` | pkg/clifmt/nilslices.go:51-83 | where no two objects of the input share an address it never does, whatever the first pass missed |
| `NilSlices.NothingToEmpty` | pkg/clifmt/nilslices.go:9-36 | a payload is encoded as before if and only if the walk reaches no nil slice that is written or that omitzero leaves out |
| `NilSlices.ContentBelowItself` | pkg/clifmt/nilslices.go:74-83 | an object met again below itself encodes there exactly as at the top, so stopping at it on the path loses nothing |
| `NilSlices.EmbeddedFieldIsMissed` | pkg/clifmt/nilslices.go:136-147 | a nil slice seen through a field the walk cannot set is still written as null |
| `NilSlices.SharedAddressIsMissed` | pkg/clifmt/nilslices.go:74-83 | a pointer to a struct's own first field keeps its nil slice, since its address is on the path |
| `NilSlices.SharedAddressIsReachedSecond` | pkg/clifmt/nilslices.go:74-83 | a second pass over that copy changes what is written |
| `NilSlices.OmittedFieldIsUncovered` | pkg/clifmt/nilslices.go:136-147 | an omitzero nil slice is absent from the input's encoding and present in the copy's |
| `Maps.OrderedMap.Set` | pkg/clifmt/map.go:25-36 | a new key goes last; a key set again keeps its position and only its value changes |
| `Maps.OrderedMap.Get` | pkg/clifmt/map.go:39-42 | a key is found if and only if it is set, with the value it was set to |
| `Maps.MapListShape` | pkg/clifmt/map.go:144-169 | one pass decides whether a list is a list of maps, and whether every element has the first one's keys and only scalars |
| `Maps.SameKeysBothWays` | pkg/clifmt/map.go:171-185 | for maps with distinct keys, equal size and one-way inclusion decide equality of the key sets |
| `Walk.WalkMembers` | pkg/clifmt/derive.go:150-174 | the three buckets, filled member by member, hold the derivation of all members, or the first failure |
| `Walk.MembersInOrder` | pkg/clifmt/derive.go:147-174 | every member is shown exactly once: scalar ones first, then sections, then tables, each kind in member order |
| `Walk.FirstFailureWins` | pkg/clifmt/derive.go:150-174 | when a member fails, the whole fails for the reason of the first that does |
| `Walk.WalkTexts` | pkg/clifmt/derive.go:249-263 | the loop over a list of scalars returns its texts, or the first failure |
| `Walk.TextsHold` | pkg/clifmt/derive.go:249-263 | item i is the text of element i, and there are items if and only if every element has a text |
| `Shows.TextMember` | pkg/clifmt/derive.go:213-234 | a member that is one text, and that no view addresses, is one Field: its caption, and the text |
| `Shows.ListMember` | pkg/clifmt/derive.go:247-263 | a list of such is one Field: its caption, and the elements' texts joined by ", " |
| `Shows.PartsMember` | pkg/clifmt/derive.go:213-234 | a struct or map is one Section under its caption, holding its own members |
| `Shows.TableMember` | pkg/clifmt/derive.go:213-245 | a list of structs or maps is shown under its caption |
| `Shows.ViewedMember` | pkg/clifmt/derive.go:48-72 | where a view stands, the member is what it returns, a lone paragraph under the member's caption; a failure is named for the innermost view |
| `Shows.RootShows` | pkg/clifmt/derive.go:95-131 | a whole value that no view addresses: "(nil)"; one text as a paragraph; a struct's or map's members; a list's items; or what a list of structs or maps shows |
| `Shows.ViewedRoot` | pkg/clifmt/derive.go:48-103 | a view at the root is handed all that under no path and no caption |
| `Shows.KindsAre` | pkg/clifmt/reflectmodel.go:47-74 | every value is one text, a plain list, something with parts, or a list of such, and is classified by which |
| `Shows.FieldsShown` | pkg/clifmt/derive.go:186-211 | a struct's members are its exported fields that json keeps and that are not hidden, in order, without those that are omitempty and empty |
| `Shows.ItemsShown` | pkg/clifmt/derive.go:176-211 | a map's members are its entries under their keys; a badly tagged struct has none and fails |
| `Shows.MembersShown` | pkg/clifmt/derive.go:147-174 | all members: texts, then sections, then tables, each in member order |
| `Walk.WalkStructTable` | pkg/clifmt/derive.go:302-351 | the table's loops over columns, elements and cells build the specified table |
| `Derive.StructTable` | pkg/clifmt/derive.go:302-351 | one row per element and one cell per column, whatever the elements hold |
| `Walk.StructTableHolds` | pkg/clifmt/derive.go:302-351 | a row's cell under a field's heading is that field's text for that element; a nil element's row is empty |
| `Walk.WalkMapTable` | pkg/clifmt/derive.go:354-372 | the loops over maps build the specified table |
| `Derive.MapTable` | pkg/clifmt/derive.go:354-372 | one row per element and one cell per key of the first |
| `Walk.MapTableHolds` | pkg/clifmt/derive.go:354-372 | in a uniform list every cell is the text of what its element holds under that key, and each holds something |
| `Walk.WalkElementBlocks` | pkg/clifmt/derive.go:376-394 | each element through its own node, under a title if there is one, or the first failure |
| `Walk.ElementsInOrder` | pkg/clifmt/derive.go:376-394 | the run holds the elements' documents one after the other, each derived as the node of that element and number |
| `Shows.ListShows` | pkg/clifmt/derive.go:265-281 | a list of structs or maps is one run of elements if a view addresses them or they fit no table, and one table otherwise, under the title given |
| `Shows.TableSliceExactly` | pkg/clifmt/derive.go:137-145 | a list is one of structs if and only if its element type, behind any pointers, is a struct type with no String method |
| `Shows.MapListExactly` | pkg/clifmt/map.go:133-205 | a list whose elements are all maps is a table if and only if they all have the same keys and every value is one text |
| `Shows.ElementShows` | pkg/clifmt/derive.go:374-394 | an element by itself is a section called by its number, from one on |
| `Shows.ViewedElement` | pkg/clifmt/derive.go:374-394 | and a view at the elements' path is handed that section |
| `Shows.BadTable` | pkg/clifmt/derive.go:302-312 | a table of a badly tagged type fails |
| `Walk.DerivedTablesAlign` | pkg/clifmt/derive.go:302-372 | every line that a derived table is written as in markdown cuts into as many pieces as its header |
| `Walk.WalkElementViews` | pkg/clifmt/derive.go:284-298 | whether any view, by path or by an element's type, addresses the elements |
| `Walk.WalkInlineDoc` | pkg/clifmt/derive.go:415-430 | a view's blocks joined into one value, in order |
| `Shows.CellShows` | pkg/clifmt/derive.go:396-413 | a cell or item that no view addresses is its value on one line |
| `Shows.CellViewed` | pkg/clifmt/derive.go:396-413 | one that a view addresses is what the view returns, read on one line; the view is handed a Field of the caption and the plain text |
| `Shows.TextInline` | pkg/clifmt/derive.go:432-444 | a text on one line is itself, however deep |
| `Shows.MembersInline` | pkg/clifmt/derive.go:432-486 | a struct or map on one line is name=text, joined, in braces when it is inside another value |
| `Shows.ElementsInline` | pkg/clifmt/derive.go:432-476 | a list on one line is its elements joined, in brackets when it is inside another value |
| `Shows.DocInline` | pkg/clifmt/derive.go:415-430 | a view's document on one line: a paragraph's text, a field's value, a list's items, joined |
| `Walk.InlineIffFlat` | pkg/clifmt/derive.go:415-430 | a document reads as one value if and only if it holds no section and no table |
| `Walk.LayersRunOnceInOrder` | pkg/clifmt/derive.go:31-67 | each layer that applies runs exactly once: the Printer's type view over the base, the call's over that, the path view over both |
| `Paths.SplitPath` | pkg/clifmt/path.go:105-124 | the splitter's loops compute the segments of a path, or refuse a malformed one |
| `Paths.SplitInvertsBuild` | pkg/clifmt/path.go:103-124 | splitting any path the walk builds from good segments gives those segments back |
| `Paths.SplitExactly` | pkg/clifmt/path.go:103-124 | a path splits into segments if and only if it is spelled from them and each is "[]" or a name, not empty, without dots and brackets |
| `Paths.ValidatePath` | pkg/clifmt/path.go:29-52 | the check's walk down the type accepts exactly the paths whose segments lead somewhere |
| `Paths.AcceptedExactly` | pkg/clifmt/path.go:29-101 | from the declarations: a path is accepted if and only if its first segment names an entry of a map, an element of a list, or the first field json sees under it of a struct that is no Stringer, is tagged well and does not hide it, and the rest is accepted there; pointers are followed, and below an interface anything is |
| `Paths.NameAcceptedExactly` | pkg/clifmt/path.go:54-101 | one name: accepted below a map, and below such a struct if and only if the first field of the name exists and is not hidden; below a scalar, a list, a Stringer or a badly tagged struct no name is |
| `Paths.ElementsAcceptedExactly` | pkg/clifmt/path.go:54-61 | "[]" is accepted below a list and nothing else |
| `Paths.ItemsBelow` | pkg/clifmt/path.go:54-101 | every member the walk visits is one step of the check below its parent, and typed as the check expects, unless its key is "[]" or json sees two fields of one name |
| `Asked.RootSame` | pkg/clifmt/derive.go:28-131 | two derivers that agree on the views at the paths the walk asks for in a value derive the same view of it, document or error |
| `Asked.UnaskedIsInert` | pkg/clifmt/derive.go:28-131 | whatever the other views, a view put at a path that is not asked for changes nothing |
| `Asked.BareDerives` | pkg/clifmt/derive.go:28-131 | without views, every value whose types carry no malformed tag derives |
| `Asked.InertExactlyIfUnasked` | pkg/clifmt/derive.go:28-131 | for every value that derives without views, no view at a path can change the result if and only if the walk does not ask for that path |
| `Paths.RefusedPathIsInert` | pkg/clifmt/path.go:29-76 | where the check accepts every path the walk asks for, a view at a path it refuses changes nothing, whatever the other views |
| `Paths.RefusedPathsInertExactly` | pkg/clifmt/path.go:29-76 | for every value, refused paths are inert if and only if the check accepts every path the walk asks for in it |
| `Paths.GoodNamesAreAccepted` | pkg/clifmt/path.go:29-124 | the check accepts every path any deriver asks for in a well-typed value whose field names and map keys are not empty, hold no dot or bracket, and repeat no field |
| `Paths.KeyAcceptedExactly` | pkg/clifmt/path.go:78-124 | at the root, over a map of strings, the path of an entry is accepted if and only if its key is empty or holds no dot or bracket |
| `Paths.RefusedInertExactlyForGoodKeys` | pkg/clifmt/path.go:29-76 | over a root map of one string every refused path is inert if and only if its key is empty or holds no dot or bracket |
| `Paths.NestedEmptyKeyIsRefused` | pkg/clifmt/path.go:103-124 | an empty key one level down: the path "m." is refused, and a view there runs |
| `Paths.DottedFieldIsRefused` | pkg/clifmt/path.go:78-101 | a field tagged "a.b": its path is refused, and a view there runs |
| `Paths.RepeatedNameIsRefused` | pkg/clifmt/path.go:78-101 | a member below the second of two fields named x: the path "x.k" is refused, and a view there runs |
| `Paths.DottedKeyIsAccepted` | pkg/clifmt/path.go:54-76 | over a map of maps the key "a.b" is read as two, and every path asked for is accepted |
| `Paths.RefusedPathIsInertForNil` | pkg/clifmt/path.go:29-52 | the same for an untyped nil, whose only node is the root |
| `Decorate.DecoratingIsTransparent` | pkg/clifmt/options.go:209-213 | adding views that return what they are given, at any paths but the element path of a list shown as a table, leaves the derived document unchanged for every value and every set of other views that do not look into errors |
| `Decorate.ElementPathTransparentExactly` | pkg/clifmt/derive.go:265-298 | such a view at a list's element path leaves the list's document unchanged if and only if the list has no table's shape or a view addresses its elements already |
| `Decorate.ErrorWatchersAreNotTransparent` | pkg/clifmt/derive.go:52-67 | a view that looks into an error it is handed can tell that such a view stands below it |
| `Decorate.TextDecorated` | pkg/clifmt/derive.go:396-413 | the same for a table cell or list item, at any path |
| `Decorate.ElementPathsAreNotTransparent` | pkg/clifmt/derive.go:265-281 | at "[]" such a view does change the document |
| `Marshal.Decoder.DecodeOrdered` | pkg/clifmt/marshal.go:53-70 | the recursive descent consumes and returns what the specification decodes off the front of the stream |
| `Marshal.Decoder.DecodeObject` | pkg/clifmt/marshal.go:72-88 | keys and values in written order, up to and with the closing brace |
| `Marshal.DecodeInvertsTokens` | pkg/clifmt/marshal.go:47-101 | decoding the tokens of any JSON value followed by anything gives that value back, keys in written order, and leaves exactly what followed |
| `Marshal.TruncatedIsRefused` | pkg/clifmt/marshal.go:53-101 | a value cut short anywhere is refused as ended early |
| `Marshal.KeyMustBeString` | pkg/clifmt/marshal.go:72-88 | a key that is no string is refused after whatever members |
| `Marshal.IntegersAreExact` | pkg/clifmt/marshal.go:103-120 | every integer of either 64-bit range is kept exactly, and one beyond both by its text |
| `Marshal.OnlyIntegersAreTaken` | pkg/clifmt/marshal.go:103-120 | of all texts JSON can spell a number by, one becomes the signed or unsigned integer i if and only if it spells i, within that range; any other is kept by its text |
| `Marshal.BuildYamlNode` | pkg/clifmt/marshal.go:122-157 | the appending loops build the specified node |
| `Marshal.YamlKeepsEverything` | pkg/clifmt/marshal.go:122-157 | a reader of the node gets every key, its place and every value back |
| `Marshal.YamlKeyOrder` | pkg/clifmt/marshal.go:127-139 | the i-th key written is the mapping's node 2i, its value node 2i + 1 |
| `Marshal.FlattenInPlace` | pkg/clifmt/marshal.go:168-172 | an array's elements are overwritten where they stand by their plain trees |
| `Marshal.FlattenObject` | pkg/clifmt/marshal.go:163-167 | an object's members put in a map one by one |
| `Marshal.PlainKeepsMembers` | pkg/clifmt/marshal.go:159-177 | the plain map has exactly the object's keys, each standing for the last value written under it |
| `Marshal.PlainKeepsElems` | pkg/clifmt/marshal.go:168-172 | an array keeps its length and each element its place |
| `Marshal.PlainTreeExactly` | pkg/clifmt/marshal.go:159-177 | the plain tree is the one thing that keeps every scalar as it is, every array element by element, and every object's keys, each with the last value written under it |
| `Markdown.Writer.WriteDoc` | pkg/clifmt/doc.go:79-91 | blocks written in order, a blank line between two unless both are single lines, sections one level deeper |
| `Markdown.WriteMarkdown` | pkg/clifmt/markdown.go:9-12 | a whole document is written with its outermost headings at level two |
| `Markdown.TextsAreWritten` | pkg/clifmt/markdown.go:19-34 | at any nesting every field, paragraph and list item stands in document order in the lines of the text, with all its lines, from "**label:** value", the paragraph or "- item" on |
| `Markdown.BlocksFollow` | pkg/clifmt/doc.go:66-91 | a block is written straight after the one before it if both are fields or paragraphs, and after one blank line otherwise |
| `Markdown.LineBlocksText` | pkg/clifmt/markdown.go:18-34 | a field is the line "**label:** value", a paragraph its text |
| `Markdown.SectionText` | pkg/clifmt/doc.go:99-103 | a section is its heading, a blank line, and its body one level deeper, to the sixth |
| `Markdown.ListText` | pkg/clifmt/doc.go:118-131 | a list is its heading, if it has a title, and a line "- item" for each item |
| `Markdown.TableText` | pkg/clifmt/markdown.go:36-66 | a table is its heading, if it has a title, its header, a row of dashes and its rows |
| `Markdown.CellText` | pkg/clifmt/markdown.go:68-72 | a cell is written character by character, a pipe after a backslash and a line break as "<br>" |
| `Markdown.Writer.WriteTable` | pkg/clifmt/markdown.go:41-66 | a header, a separator and one line per row, appended to the stream |
| `Markdown.RowReadsBack` | pkg/clifmt/markdown.go:36-72 | splitting a written row at the pipes no backslash precedes recovers the escaped cells, in order and in full |
| `Markdown.RowIsOneLine` | pkg/clifmt/markdown.go:68-72 | a row holds no line break, whatever its cells hold |
| `Markdown.TablesNeverRunOn` | pkg/clifmt/doc.go:66-116 | in the lines of the written text, at any nesting, each table line stands at an index of its own; the line after it is the same table's next, or blank, or the end |
| `Markdown.TablesAreWritten` | pkg/clifmt/doc.go:79-116 | the rows of every table at any nesting stand in order on lines of the written text, and each such line, cut at its delimiting pipes, gives back its escaped cells |
| `Markdown.TableLinesAlign` | pkg/clifmt/markdown.go:41-66 | rows as long as the header make lines that cut into as many pieces as the header and the separator |
| `Markdown.TitlesAreWritten` | pkg/clifmt/doc.go:93-131 | every section's title and every non-empty table or list title stands in order on a heading line of the written text, at the level its nesting gives it |
| `Markdown.LevelsNest` | pkg/clifmt/markdown.go:79-84 | no title stands above its document's level or below the sixth |
| `Presenter.Loop.Start` | internal/adapters/cli/approval_presenter.go:111-120 | what is already waiting is shown without a bell and one summon is made |
| `Presenter.Loop.OnEvent` | internal/adapters/cli/approval_presenter.go:122-145 | the state after any event, from the state before it and the queue as it is read |
| `Presenter.Loop.OnTick` | internal/adapters/cli/approval_presenter.go:148-170 | the state after a tick, each of whose looks finds a queue of its own |
| `PresenterRuns.StepKeepsInv` | internal/adapters/cli/approval_presenter.go:100-181 | every step of the environment and of the presenter keeps what the theorems below rest on |
| `Bells.RunRings` | internal/adapters/cli/approval_presenter.go:54-63 | over every run the bell sounds once for each arrival heard of that is not presented and each look inside two minutes of a deadline not warned of, and for nothing else; a note is left once for each timeout heard of |
| `Bells.RingsOnceEach` | internal/adapters/cli/approval_presenter.go:54-63 | over every run a request rings at most once for its arrival and at most once for its warning |
| `Bells.SummonAfter` | internal/adapters/cli/approval_presenter.go:110-220 | who is summoned for after any step, told by what is pending: at the start the request that runs out first, then each new one heard of and each one warned of; only its return and an empty queue end a summon |
| `Bells.PresentedAfter` | internal/adapters/cli/approval_presenter.go:110-170 | which requests count as presented after any step |
| `Bells.WarnedAfter` | internal/adapters/cli/approval_presenter.go:110-181 | whose warning is spent after any step |
| `PresenterRuns.NoApprovalIsLost` | internal/adapters/cli/approval_presenter.go:64-86 | in every reachable state after the start, a pending request is presented, or its arrival event is unpublished, undelivered, or was dropped at a full channel |
| `PresenterRuns.DroppedArrivalIsMissed` | internal/core/coord/approvalqueue.go:540-567 | in every continuation of a run in which a request's arrival finds the channel full before it is presented, it is not presented, not summoned for as new, and warned of at most once |
| `PresenterRuns.MissedIsOnlyWarned` | internal/adapters/cli/approval_presenter.go:148-181 | such a request is summoned for by exactly the first look a tick takes at it inside its warning |
| `PresenterRuns.OneTooMany` | internal/core/coord/approvalqueue.go:537-567 | a run of one arrival more than the channel holds, after which a pending request is missed |
| `PresenterRuns.DrainedPanelIsTrue` | internal/adapters/cli/approval_presenter.go:100-195 | with nothing left to deliver and nothing dropped, the panel counts exactly what is pending and dates the oldest |
| `PresenterRuns.TickRepairsPanel` | internal/adapters/cli/approval_presenter.go:148-195 | whatever was dropped, from the beginning of any tick until the queue next changes it does so too |
| `PresenterRuns.SummonedAndWarnedOnce` | internal/adapters/cli/approval_presenter.go:54-63 | over any run a request is summoned for at most once as new and warned of at most once |
| `PresenterRuns.SummonIsJustified` | internal/adapters/cli/approval_presenter.go:202-220 | a summon in flight implies that something is pending, or a resolution is unpublished or undelivered, or one was dropped at a full channel |
| `Summons.StepMakesStale` | internal/adapters/cli/approval_presenter.go:122-220 | a step leaves a summon in flight with nothing pending and no resolution to come if and only if it drops the last one to come, or warns of a snapshot's request that is gone and its resolution lost |
| `Summons.StepEndsStale` | internal/adapters/cli/approval_presenter.go:202-220 | a step ends that if and only if the summon returns or a request is parked |
| `Summons.SummonEndsExactly` | internal/adapters/cli/approval_presenter.go:122-220 | a summon ends if and only if it returns, or a resolution is handled with the queue empty |
| `Summons.StaleExactly` | internal/adapters/cli/approval_presenter.go:100-220 | over every run from a state without one, a summon is left so if and only if some step leaves it so and none after it returns one or parks a request |
| `Summons.StaleSummon` | internal/adapters/cli/approval_presenter.go:202-220 | a run that drops a resolution and ends with a summon in flight, nothing pending and nothing left to hear |
| `Summons.TickSummonsTooLate` | internal/adapters/cli/approval_presenter.go:148-181 | a run whose last step is a tick's look that starts such a summon, with none in flight before |
| `PresenterRuns.ShortRequestWarnedIffMarkedFirst` | internal/adapters/cli/approval_presenter.go:122-181 | a request heard of when already inside the warning is warned of, over the whole run, if and only if a tick had marked it before |
| `PresenterRuns.EarlyTickSummonsTwice` | internal/adapters/cli/approval_presenter.go:122-181 | a run in which a tick comes first, and one request is both warned of and summoned for |
| `Attach.StepKeepsInv` | internal/adapters/attach/attach.go:60-100 | every step of any thread, of the CLI and of the daemon keeps the teardown's invariant |
| `Attach.RemovalRunsOnce` | internal/adapters/attach/attach.go:60-68 | over every interleaving the removal starts at most once, and so does the goroutine of End |
| `Attach.CliOutlivesRemoval` | internal/adapters/attach/attach.go:77-100 | in every run the step that ends the run CLI, unless it is the CLI's own exit, comes after the removal has completed |
| `Attach.KillLeavesNothing` | internal/adapters/attach/attach.go:36-100 | once a Kill has returned the CLI is gone and no container exists, then or at any later point of the run |
| `Attach.EndLeavesNothing` | internal/adapters/attach/attach.go:70-88 | a call that has returned has left exactly one goroutine; once that is over the CLI is gone and no container exists, then or later |
| `Attach.NoCallHangs` | internal/adapters/attach/attach.go:60-100 | from any state of any run, each call that was made and End's goroutine can be brought to its end |
| `Winsize.SendNeverBlocks` | cmd/mockengine/winsize_unix.go:37-48 | the send after a drain always finds room |
| `Winsize.ReceivedInOrder` | cmd/mockengine/winsize_unix.go:32-50 | the consumer receives a strictly increasing subsequence of the sizes produced |
| `Winsize.NewestIsNeverLost` | cmd/mockengine/winsize_unix.go:32-50 | after each of the producer's iterations the newest size is waiting or was the last received |
| `Winsize.ProducerNeverWaits` | cmd/mockengine/winsize_unix.go:32-50 | from any state of any run the producer can take its next step, and is back at its loop after at most three of its own |
| `Winsize.SizesAccounted` | cmd/mockengine/winsize_unix.go:32-50 | every signal whose geometry can be read yields a size, and every receive takes one |
| `Credential.Presenter.Refresh` | internal/adapters/cli/credential_presenter.go:84-98 | one poll's effect on the notice, the known holds and the bell |
| `Credential.Presenter.FindOpened` | internal/adapters/cli/credential_presenter.go:73-80 | whether any hold is refused now that was not refused at the last poll |
| `Credential.OpenedExactly` | internal/adapters/cli/credential_presenter.go:47-80 | told by the lists of two polls: a refusal opens if and only if some hold is refused now and no hold of its identity was before |
| `Credential.CredentialKeepsId` | internal/adapters/cli/credential_presenter.go:47-56 | a credential's hold keeps its identity whichever runs it holds and whether it is limited or refused |
| `Credential.HoldsApart` | internal/adapters/cli/credential_presenter.go:47-56 | holds of other credentials or instants are told apart, and endpoint failures by their run as well |
| `Credential.NoticeNamesKind` | internal/adapters/cli/credential_presenter.go:131-147 | what stands before a notice's first colon names its kind, and tells the four apart whatever else it says |
| `Credential.CredentialNotice` | internal/adapters/cli/credential_presenter.go:131-147 | a credential's notice says who waits, the carrier, how many runs, and the remedy or the time it resumes |
| `Credential.EndpointNotice` | internal/adapters/cli/credential_presenter.go:131-147 | an endpoint failure's says which run backs off, and until when |
| `Credential.NoticeCounts` | internal/adapters/cli/credential_presenter.go:113-127 | the oldest hold in full, and how many more there are |
| `Credential.Presenter.Flash` | internal/adapters/cli/tui/split_approvals.go:320-327 | the panel's one note line, which a later note of any writer replaces and its own expiry clears |
| `Credential.NoticeReadsUnlessReplaced` | internal/adapters/cli/credential_presenter.go:21-28 | for one full refresh margin after any poll the line reads exactly what that poll's holds say, or the last note that replaced the notice, while that lasts |
| `Credential.NoticeShowsExactly` | internal/adapters/cli/credential_presenter.go:21-28 | while a hold is in force the line reads the notice in that margin if and only if no note of another text was set since the notice was |
| `Credential.NoticeComesBackExactly` | internal/adapters/cli/credential_presenter.go:84-98 | a poll sets a replaced notice again if and only if its holds say something else or a refresh has passed since the notice was last set |
| `Credential.TimedOutNoteHidesNotice` | internal/adapters/cli/approval_presenter.go:122-145 | one timed-out approval hides the notice of a hold in force until the refresh is due |
| `Credential.NoticeNeverLapses` | internal/adapters/cli/credential_presenter.go:21-28 | when nothing else writes to the line the notice neither lapses within that margin nor outlives its holds |
| `Credential.NoticeCanLapseBeyond` | internal/adapters/cli/credential_presenter.go:21-28 | past that margin a notice left to stand can have gone while its hold is in force |
| `Credential.RingsExactlyOnOpening` | internal/adapters/cli/credential_presenter.go:58-80 | the first poll never rings, a later one rings, once, if and only if a refusal opens, and no other note rings |
| `Credential.OneRingPerRefusal` | internal/adapters/cli/credential_presenter.go:58-80 | between two openings of one hold there is a poll at which it is not refused |
| `Credential.UpgradeOpens` | internal/adapters/cli/credential_presenter.go:47-80 | a limit that becomes a refusal opens as one, under the identity it had |
| `Shell.ReadWord` | cmd/taskloom/prune.go:228-239 | a quoted word is read back by a shell as itself, whatever follows it |
| `Shell.BareExactly` | cmd/taskloom/prune.go:228-239 | a word is printed unquoted if and only if it is not empty and is all letters, digits and marks that no shell minds |
| `Shell.ShellGivesWordsBack` | cmd/taskloom/prune.go:228-239 | any list of words, quoted and joined by spaces, is read back as exactly that list |
| `Shell.PruneApplyCommand` | cmd/taskloom/prune.go:215-226 | the printed line is the quoted argument list of the selection |
| `Shell.PastedCommandSelectsTheSame` | cmd/taskloom/prune.go:215-251 | the shell passes on exactly the printed arguments, and they select what was reported if and only if there is a status and each one is read back from its flag as itself |
| `Listing.FilterActiveDefault` | cmd/taskloom/scope.go:599-615 | what is shown and what is counted hidden add up to what matched; done, deferred and active tasks are told apart |
| `Listing.DefaultView` | cmd/taskloom/scope.go:599-615 | a task is shown, as often as it is listed, if and only if it is neither finished nor deferred; a finished one counts as completed, deferred or not |
| `Listing.CapRows` | cmd/taskloom/scope.go:484-492 | a prefix of at most limit rows, and the count of the rest; no limit, nothing omitted |
| `Listing.OrdersAreWeak` | cmd/taskloom/scope.go:578-588 | both orders are ones a sort can be asked for |
| `Listing.SortedForReading` | cmd/taskloom/scope.go:573-588 | projects ascend; within one, priorities fall or harps rise |
| `Listing.SortIsStable` | cmd/taskloom/scope.go:578-588 | rows that tie keep their order |
| `Listing.ListAllProjects` | cmd/taskloom/scope.go:402-446 | rows, omitted, hidden completed and hidden deferred add up to the matching tasks of all stores, each hidden one under its own count; the rows are a prefix of the stable order, as long as the limit allows |
| `Listing.ShownExactly` | cmd/taskloom/scope.go:402-446 | a row is visible if and only if some store of its project matched its task and the view lets it through |
| `Listing.RenderGlobalTaskTable` | cmd/taskloom/commands.go:385-416 | the sections concatenate to the rows, none is empty, and rows grouped by project put each project under exactly one heading |
| `Listing.ListingIsGrouped` | cmd/taskloom/scope.go:575-588 | the listing's rows are grouped by project, whichever order was asked for and wherever they are cut |

## Left out

Not modelled at all: git, `go list` and changeset discovery, gomutants and its regular expressions, flag
parsing other than the prune command's, process spawning, file locks and renames, help text, all other
renderers and command bodies.

Throughout:

- Integers are unbounded where Go's are 64-bit and only counts or costs are added; decoded integers have their 64-bit ranges.
- Error values are told apart by cause; their texts are not modelled.
- Go's sort.Slice and sort.Strings are an insertion sort: under the orders used here the result is unique, or is the stable one where the code asks for a stable sort.

The mutation run:

- Report bytes arrive as missing, unreadable or read; reading JSON is not modelled. Efficacy and coverage are exact quotients, not floats.
- Judge.JudgeUnion: gives the counts of the shards before the one that is refused; the counts inside a refused shard are not modelled.
- A baseline file is its text: reading errors, the temporary file and the messages printed are not modelled.

The rendering engine:

- Reflection is a finite universe of types and values. Embedded fields, fields the json tag drops, labels and hints are taken as already resolved. A value is finite, so a cyclic value rendered for humans is not modelled.
- A custom view is given its derived view rather than a way to ask for it; views that render other values as a fresh root, or look at the format, are not modelled. Option conflicts and the choice of writer are not modelled.
- A derivation below a node is a function call inside the loops of `Walk`, rather than a call of the loop one level down.
- Paths.RefusedPathIsInert: supposes the same; that it fails without is exact for maps of one entry. The converse, that an accepted path's view always runs, is not true of the code and not claimed: cells and lists of lists render inline without consulting nested views.
- Decorate.DecoratingIsTransparent: supposes that the other views do not look into an error they are handed; `Decorate.ErrorWatchersAreNotTransparent` shows why. That no decorated list is shown as a table is sufficient for the whole value; that it is also necessary is stated for one list.
- Paths.ValidatePath: is about one path; the joined report on several is not modelled.
- Paths.KeyAcceptedExactly: speaks of a map of strings at the root. What is accepted below depends on the types on the way, and no condition on a key alone is claimed there.
- Paths.RefusedPathsInertExactly: is about one more view on a derivation without views that succeeds. With others, that a refused path is inert where everything asked for is accepted still holds; the converse need not, since a view may discard what lies below it.
- Paths.ItemsBelow: supposes that no key is "[]" and no two fields json sees share a name.
- NilSlices: slices, arrays and structs are held by value, so a slice that contains itself or shares its array is not modelled; types that own their encoding, byte slices and nil maps are opaque. An embedded struct is its promoted fields; an embedded pointer is not modelled. What an IsZero method of a struct or list type tells omitzero is not modelled. In `NilSlices.EmptyingTwice` the copies have addresses of their own; `NilSlices.EmptyingTwiceChangesNothing` holds at any. A value whose MarshalJSON has a pointer receiver is left alone by the walk but, where it cannot be addressed, encoded without that method; and a slice of a uint8 kind whose elements encode themselves is written as a list: both are opaque leaves here.
- Marshal: token streams as encoding/json delivers them; a key that is no string is an error here and cannot occur there. Numbers that are no 64-bit integer are kept by their text. What yaml and toml libraries write is not modelled.
- Markdown: a carriage return inside a cell passes through; a table without columns is not claimed to read back; the text format and its alignment are not modelled.

The protocols:

- Presenter: a handler's reading of the queue and its effects are one step, but a tick's looks are separate steps. Withdrawing a summon and waiting for it to end are one step, so that at most one is in flight is part of the state. Times are whole seconds.
- Attach: a thread's step is one call into the session or the runtime. A removal returns only when the container is deleted, or when the CLI has exited with no request of its own in flight. The grace period ends at any time after the removal.
- Winsize: a signal is a step; reading the geometry succeeds or does not.
- Credential: another writer's note is its text, its time and how long it lasts; a note's expiry is a comparison of times, in whole seconds. A hold is identified by a triple rather than by a joined string; its carrier, time and remedy are as they are spelled.

The commands:

- Shell.ShellGivesWordsBack: the shell modelled refuses any line that uses more than blanks, single quotes, backslashes and characters that always stand for themselves, so the theorem also says that the printed line uses nothing else.
- Listing: priorities are reals, so NaN and the order it breaks are not modelled. Stores arrive with their matching tasks; opening them, their filters, derived priorities and the warnings about them are not modelled, and a section holds its tasks rather than their formatted rows.

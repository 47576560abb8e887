# MegaController task list: a Dafny model

This project models the core of `ViewController` in MegaController, a
single-screen iOS task list. The controller shows its tasks in three table
sections by due date: Now, Soon and Upcoming. It keeps them in memory as
`taskSections`, an array of three arrays. Each array is in ascending order of
due date. The controller fills them once from a Core Data fetch. After that,
the fetched results controller's change callbacks insert and delete one task
at a time. Around this store sit a few small switches over integers:

- the rule that picks a task's section from its day count;
- the section header titles;
- the relative-day text under each task ("3 days ago", "today", "in 4 days");
- the navigation bar and status bar styles, driven by the number of tasks.

Files:

- `wrappers.dfy`: `Option`.
- `swift_int.dfy`: the bounds of Swift's 64-bit `Int`.
- `buckets.dfy`: `sectionIndexForTask` and `titleForHeaderInSection`.
- `relative_day.dfy`: the description switch and `lowercased()`. It also has
  a decimal renderer and a parser, `ParseDescription`, which serves as the
  switch's inverse.
- `urgency.dfy`: `updateNavigationBar` and `preferredStatusBarStyle`.
- `task_store.dfy`: `Task`, the per-section operations, and the specification
  functions for the three sections. It also has the class `TaskSections`,
  which holds `taskSections` as a `seq<seq<Task>>` field. Its methods are the
  load loop of `viewDidLoad` and the insert and delete branches of
  `controller(_:didChange:at:for:newIndexPath:)`. Each method's `ensures`
  ties the new state to a specification function of the old state.

Inputs that come from outside the controller are parameters:

- "Days until due" is an `Option<int>` parameter. `None` stands for a
  calendar that returns no day component. The section rule gets the raw
  now-to-due count. The description gets the count between the starts of the
  two days. They are separate inputs because the source computes them
  differently (lines 74-77 and 133-145).
- The load takes the per-task day count as a function `Task -> Option<int>`.
- A task's identity (the managed object) is its `id` field. `index(of:)`
  finds the first task with that id.

The insert position follows the code at line 186. `insertedTaskDate.compare(otherTaskDate) == .orderedAscending`
finds the first task due strictly later than the new one. So a new task goes
after every task due at the same time, as an upper-bound insertion.
`TaskStore.InsertAfterEqualDue` states the tie order. `TaskStore.InsertKeepsSorted`
proves that the order stays sorted.

Three of the places where the source stops the program depend on the
store's state or on its inputs: a force-unwrapped `index(of:)` that finds
nothing, a `.move` or `.update` change, and an unexpected section index. The
model returns these as values instead, and leaves the state unchanged:

- the missing index is `Abort(TaskNotInSection)`, or `None` from `DeleteTask`;
- a move or update is `Abort(UnsupportedChange)`;
- an unexpected section index makes `SectionTitle` return `None`.

The other force casts and force unwraps of these functions are listed under
"## Left out".

## Model

| member | source | states |
|---|---|---|
| `Buckets.SectionIndex` | MegaController/ViewController.swift:72-89 | The section is always 0, 1 or 2. A missing day count gives 2. Otherwise the section is 0 exactly when the count is at most 2, 1 exactly when it is 3 to 5, and 2 exactly when it is above 5. |
| `Buckets.SectionIndexAsWritten` | MegaController/ViewController.swift:81-88 | The switch as written, on 64-bit `Int`: always 0, 1 or 2, and None gives 2. The result is 0 exactly for `-Int.max ... 2` and 1 exactly for `3...5`; everything else, `Int.min` included, takes the default 2. |
| `Buckets.SectionIndexMonotone` | MegaController/ViewController.swift:81-88 | A task due later never gets an earlier section. |
| `Buckets.SectionIndexAsWrittenAgrees` | MegaController/ViewController.swift:81-88 | The switch as written, on 64-bit `Int`, agrees with `SectionIndex` on every input except `Some(Int.min)`. |
| `Buckets.SectionIndexAsWrittenAtIntMin` | MegaController/ViewController.swift:82 | On `Int.min` the switch as written answers 2 (Upcoming), but the intended rule answers 0 (Now). |
| `Buckets.SectionTitle` | MegaController/ViewController.swift:103-114 | A title exists exactly for sections 0..2. Every other index is the fatal-error path (None). |
| `Buckets.SectionTitleRoundTrip` | MegaController/ViewController.swift:104-113 | Titles and sections correspond one to one. A section's title reads back as that section, and a title that reads back as a section is that section's title. So "Now", "Soon" and "Upcoming" are distinct. |
| `Buckets.EverySectionIndexHasTitle` | MegaController/ViewController.swift:72-114 | Every section a task can be put in has a header title. |
| `RelativeDay.Decimal` | MegaController/ViewController.swift:151 | The interpolated numeral has at least one digit and only digits. It starts with '0' only for 0, and it has at least two digits from 10 on. |
| `RelativeDay.DecimalValueOfDecimal` | MegaController/ViewController.swift:151 | Reading a rendered numeral back gives the number. |
| `RelativeDay.DecimalOfDecimalValue` | MegaController/ViewController.swift:159 | Rendering the value of a numeral without leading zeros gives the numeral back. |
| `RelativeDay.Lowercase` | MegaController/ViewController.swift:162 | `lowercased()` keeps the length. It turns every capital into its small letter, 32 code points on, and keeps every other character. |
| `RelativeDay.LowercaseIdempotent` | MegaController/ViewController.swift:162 | Lowercasing twice is the same as lowercasing once. |
| `RelativeDay.LowercaseConcat` | MegaController/ViewController.swift:162 | Lowercasing a concatenation is the concatenation of the lowercased parts. |
| `RelativeDay.RawDescription` | MegaController/ViewController.swift:149-160 | The text before lowercasing is never empty. It starts with a capital exactly when the difference is -1 or more, so only "n days ago" starts with a digit. |
| `RelativeDay.Description` | MegaController/ViewController.swift:149-162 | The lowercased detail text: as long as the raw text, and without capitals. |
| `RelativeDay.DescriptionCases` | MegaController/ViewController.swift:147-162 | For every day difference n: n <= -2 gives "\|n\| days ago", -1 gives "yesterday", 0 gives "today", 1 gives "tomorrow", and n >= 2 gives "in n days". |
| `RelativeDay.ParseOfDescription` | MegaController/ViewController.swift:148-162 | Every day difference can be read back from its description. |
| `RelativeDay.DescriptionOfParse` | MegaController/ViewController.swift:148-162 | Every text that reads back as a day difference is exactly that difference's description. |
| `RelativeDay.ParseDescriptionIff` | MegaController/ViewController.swift:148-162 | A text reads back as n exactly when it is n's description. So no two day differences share a text. |
| `RelativeDay.DetailText` | MegaController/ViewController.swift:147-163 | The detail label is set exactly when a day difference exists. When set, it has no capitals and reads back as that difference. |
| `RelativeDay.RawDescriptionAsWritten` | MegaController/ViewController.swift:149-160 | The switch as written, on 64-bit `Int`: never empty, and it starts with a capital exactly outside `-Int.max ... -2`, `Int.min` included. |
| `RelativeDay.DescriptionAsWritten` | MegaController/ViewController.swift:149-162 | The as-written text, lowercased: as long as the raw text, and without capitals. |
| `RelativeDay.DescriptionAsWrittenAgrees` | MegaController/ViewController.swift:149-160 | The switch as written, on 64-bit `Int`, agrees with `Description` on every Int except `Int.min`. |
| `RelativeDay.DescriptionAsWrittenAtIntMin` | MegaController/ViewController.swift:150-159 | On `Int.min` the switch as written renders "in -9223372036854775808 days". That text is not the description of any day difference. |
| `Urgency.UrgencyLevel` | MegaController/ViewController.swift:201-214 | The level is Normal exactly for 0..3 tasks, Warning exactly for 4..9, and Critical exactly for 10 or more. |
| `Urgency.UrgencyMonotone` | MegaController/ViewController.swift:201-214 | More tasks never lower the urgency. |
| `Urgency.NavigationBar` | MegaController/ViewController.swift:201-214 | The bar has no tint exactly for 0..3 tasks, and the red tint exactly for 10 or more. Title and button items are white exactly when the bar is tinted. |
| `Urgency.NavigationBarShowsUrgency` | MegaController/ViewController.swift:201-214 | Two counts give the same navigation bar exactly when they have the same urgency. The bar is tinted, with a white title, exactly when the urgency is not Normal. |
| `Urgency.PreferredStatusBarStyle` | MegaController/ViewController.swift:217-224 | The style is Default exactly when there is no controller or the count is 0..3. |
| `Urgency.StatusBarFollowsUrgency` | MegaController/ViewController.swift:201-223 | The status bar is light exactly when the urgency is not Normal. That is also exactly when the navigation bar's title is white. |
| `TaskStore.InsertionIndex` | MegaController/ViewController.swift:184-187 | Returns the first position whose task is due strictly later, or the section's length if there is none. Every task before that position is due no later. |
| `TaskStore.IndexOfId` | MegaController/ViewController.swift:192 | Returns None exactly when no task in the section has the identity. Otherwise it returns the first position that holds it. |
| `TaskStore.InsertAt` | MegaController/ViewController.swift:188 | `insert(_:at:)` adds one element. The new task is at the index, the tasks before it stay in place, the tasks from the index on move up by one, and the multiset gains exactly that task. |
| `TaskStore.RemoveAt` | MegaController/ViewController.swift:193 | `remove(at:)` drops one element. The tasks before the index stay in place, the tasks after it move down by one, and the multiset loses exactly the element at the index. |
| `TaskStore.InsertKeepsSorted` | MegaController/ViewController.swift:184-188 | Inserting at the insertion index keeps a sorted section sorted. |
| `TaskStore.InsertAfterEqualDue` | MegaController/ViewController.swift:186 | In a sorted section, every task due no later than the new one stays before it, and every task due later comes after it. |
| `TaskStore.InsertLatestAppends` | MegaController/ViewController.swift:187 | When no task is due later than the new one, the task is appended at the end. |
| `TaskStore.IndexOfInserted` | MegaController/ViewController.swift:188-192 | In a section without the task, `index(of:)` finds an inserted task at the position it was inserted at. |
| `TaskStore.RemoveInserted` | MegaController/ViewController.swift:188-193 | Removing at the position just inserted at gives back the section. |
| `TaskStore.RemoveKeepsSorted` | MegaController/ViewController.swift:193 | Removal keeps a sorted section sorted. |
| `TaskStore.InsertIntoSections` | MegaController/ViewController.swift:181-188 | Insert leaves three sections, with one task more in total. Only the computed section changes. That section is `InsertAt` of it at the insertion index, so the tasks already there keep their order. It grows by one, holds the task at the insertion index, and gains exactly that task. Sorted sections stay sorted. |
| `TaskStore.DeleteFromSections` | MegaController/ViewController.swift:190-193 | Delete fails exactly when the task is not in its computed section. Otherwise it removes the first occurrence there, leaving one task fewer in total. No other section changes, and sorted sections stay sorted. |
| `TaskStore.DeleteAfterInsert` | MegaController/ViewController.swift:181-193 | Take a task that is not yet in its section. Inserting it and then deleting it, with the same day count, gives back the original sections. |
| `TaskStore.Bucketed` | MegaController/ViewController.swift:64-66 | Every task the load appends to section b has section index b and comes from the fetch. |
| `TaskStore.Loaded` | MegaController/ViewController.swift:64-66 | After the load there are still three sections. Each begins with what it held before, so the load only appends. The total count grows by the size of the fetch. |
| `TaskStore.LoadedStep` | MegaController/ViewController.swift:64-66 | One more loop iteration appends the task to its own section only. |
| `TaskStore.BucketedSorted` | MegaController/ViewController.swift:51-66 | A fetch sorted by due date gives sorted sections. |
| `TaskStore.BucketedPartition` | MegaController/ViewController.swift:64-66 | Together, the three sections hold every fetched task exactly as often as the fetch does. |
| `TaskStore.BucketedCount` | MegaController/ViewController.swift:64-66 | The three sections together hold as many tasks as the fetch. |
| `TaskStore.LoadedFromEmptyIsBucketed` | MegaController/ViewController.swift:45-66 | Loading into the initial `[[], [], []]` gives exactly each section's share of the fetch. |
| `TaskStore.LoadedFromEmptyPartition` | MegaController/ViewController.swift:45-66 | Loading into the initial empty sections partitions the fetch. |
| `TaskStore.LoadedFromEmptySorted` | MegaController/ViewController.swift:45-66 | Loading a fetch sorted by due date into the initial empty sections leaves every section sorted. |
| `TaskStore.CellFor` | MegaController/ViewController.swift:120-164 | The cell's text is the task's title, which may be nil. With a calendar day difference, the detail is set and reads back as that difference. Without one, the detail is left as it was in the reused cell. |
| `TaskStore.TaskSections.constructor` | MegaController/ViewController.swift:45 | The store starts as three empty sections. |
| `TaskStore.TaskSections.NumberOfSections` | MegaController/ViewController.swift:99-101 | The table always has three sections. |
| `TaskStore.TaskSections.Load` | MegaController/ViewController.swift:64-66 | The loop appends each fetched task, in fetch order, to its section. The new state is `Loaded(old state, fetch)`, and the total count grows by the size of the fetch. A sorted fetch into empty sections leaves the store sorted. |
| `TaskStore.TaskSections.InsertTask` | MegaController/ViewController.swift:181-189 | The returned path is (computed section, insertion index), and that row holds the task. The new state is `InsertIntoSections` of the old state. Sortedness is kept. |
| `TaskStore.TaskSections.DeleteTask` | MegaController/ViewController.swift:190-194 | Returns None, and changes nothing, exactly when the task is not in its computed section. Otherwise the path is (section, first index of the task), and the new state is `DeleteFromSections` of the old state. Sortedness is kept. |
| `TaskStore.TaskSections.DidChange` | MegaController/ViewController.swift:178-198 | An insert reports the row (computed section, insertion index) and changes the state as `InsertIntoSections`. A delete reports the row (computed section, first index of the task) and changes the state as `DeleteFromSections`. A failed lookup, a move or an update is an Abort that leaves the state unchanged. |

## Findings

| source | as written | input that shows it | evidently intended | confidence | as-written member | corrected member |
|---|---|---|---|---|---|---|
| MegaController/ViewController.swift:82 | `case -Int.max ... 2: return 0`. The lowest `Int`, `-Int.max - 1`, is outside this range and falls to `default: return 2`. | day count `Int.min`: the section is 2 (Upcoming) | every day count of at most 2 is section 0 (Now) | low; not executed; the calendar does not produce such a day count for real dates | `Buckets.SectionIndexAsWrittenAtIntMin` | `Buckets.SectionIndex` |
| MegaController/ViewController.swift:150 | `case -Int.max ... -2: "\(abs(n)) days ago"`. `Int.min` falls to `default: "In \(n) days"`. | day difference `Int.min`: the text is "in -9223372036854775808 days" | every difference of at most -2 reads "\|n\| days ago" | low; not executed; same reason | `RelativeDay.DescriptionAsWrittenAtIntMin` | `RelativeDay.DescriptionCases` |

In both rows the rest of the model uses the corrected definitions, which work
over unbounded `int`. The as-written definitions are
`Buckets.SectionIndexAsWritten` and `RelativeDay.DescriptionAsWritten`.

## Left out

- The Core Data stack (lines 16-43) and the fetch setup (lines 50-62) are
  persistence. The fetch promises results sorted by due date. That promise is
  the `SortedByDue` hypothesis of `Load`'s last postcondition. The filter to
  tasks due within ten days of now is not modelled.
- The calendar arithmetic (lines 73-77 and 126-145) and `Date()` are not
  modelled. The day counts are inputs.
- Due dates are `Date` values, which are floating point. Here they are
  integers, and `compare(_:) == .orderedAscending` becomes `<`.
- The table view calls are not modelled: `beginUpdates`, `endUpdates`,
  `insertRows`, `deleteRows` and cell dequeueing (lines 123, 168-175, 189
  and 194). Instead, `InsertTask` and `DeleteTask` return the row path the
  table view is given.
- `tableView(_:numberOfRowsInSection:)` and the row lookup in `cellForRowAt`
  (lines 116-121) are plain array reads. `CellFor` takes the task directly,
  and the cell returned by `dequeueReusableCell` (line 123) as a parameter.
- `canEditRowAt` and `commit editingStyle` (lines 91-97) pass a delete
  request to Core Data. It comes back as a delete change, which `DidChange`
  handles.
- The navigation bar colours are `UIColor` values. They are kept as their
  integer red, green and blue numerators over 255, with alpha 1 and no
  floating point. `barTintColor`, `titleTextAttributes` and `tintColor` are
  fields of `BarAppearance`.
- `updateNavigationBar` and `preferredStatusBarStyle` count the fetched
  objects of the results controller, not the sections. `UrgencyLevel`
  therefore takes the count as a parameter, and its link to
  `TotalCount(sections)` is not stated.
- `RelativeDay.Lowercase` maps only ASCII capitals. The full Unicode mapping
  of `lowercased()` is left out because every text the switch produces is
  ASCII.
- The modal transition (lines 226-263) and `unwindFromAddController`
  (lines 265-272) are animation and persistence.
- Force casts and force unwraps that cannot fail in the model are not
  modelled. A task always has a due date, so the `as! Date` casts at lines
  73, 126, 182 and 185 always succeed. The same holds for
  `anObject as! NSManagedObject` (line 179) and `fetchedObjects!` (lines
  64, 201 and 218). `navigationController!` (lines 203-213) and the
  labels `textLabel!` and `detailTextLabel!` (lines 124 and 162) are
  assumed present. The day starts `beginningOfToday!` and
  `beginningOfTaskDate!` (lines 143-144) belong to the calendar arithmetic,
  which is not modelled either.
- The trap in `abs(Int.min)` cannot happen in the source, because `Int.min`
  never reaches that case. The corrected `Description` works over unbounded
  `int` and has no such trap.

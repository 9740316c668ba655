# Verification of acme-dns

A Dafny model of the stateful parts of acme-dns and of its management grid, with proofs of
what they promise. `dafny verify dfyconfig.toml` checks the project.

* **Spreadsheet engine** (`clipboard`, `table`, `batches`, `plans`, `builders`, `gridlaws`,
  `pasteback`): the TSV printer and its scanning parser, the batches built by copy, clear, cut,
  paste and the fill handle over shown rows and selectable columns, undo and redo.
* **Column widths** (`reals`, `resize`, `autosize`): the clamped drag of a column edge, and the feedback
  loop of the auto-size column.
* **Store** (`text`, `store`, `storelaws`, `upgrade`): registrations and their two TXT rows,
  the recoverable password copies, and the upgrade chain under crashes.
* **Doors** (`api`, `throttle`): the gate before `/update` and what it means for served values;
  the login throttle with logins running at once.
* **Resolution** (`nameserver`, `resolver`): the record index, authority and answers; concurrent
  reverse lookups.

How the world is modelled:

* The table's rows, columns, rendered ids, regions and the consumer's data are inputs; a row's id
  stands for the row object handed to `format`, `parse` and `editable`, which are arbitrary functions.
* A hash is known only through the password it was made from, and a sealed copy only opens under
  its own key; salts, nonces, ids and password draws are arguments.
* SQL statements act on sequences of rows. A failing statement, a failing commit or a crash is an
  argument or a step. The choice among equally old TXT rows is arbitrary.
* The clock is an argument. Widths are real numbers. A lookup or a record parser is an arbitrary
  function.
* Concurrency (logins, lookups) and start-up are state machines over all interleavings.

Statements that turned out false of the code, each with the exact condition and a failing input:

* Pasting a copy back onto its region can change it. On screen that is one shape of region only: two
  rows of a single selectable column whose second cell prints empty (`PasteBack.PasteBackUnchanged`,
  `PasteBack.LastRowLost`). Longer columns with an empty last cell are safe, because the shortened
  block no longer divides the region. With hidden rows in the region the block may be repeated below
  it (`PasteBack.PasteBackExactly`, `PasteBack.PasteStaysInside`, `PasteBack.PasteLeavesRegion`).
  `PasteBack.PasteBackFails` builds a sheet for each of the two.
* With a maximum size the auto-size loop comes to rest only if the space is less than one pixel above
  that maximum (`AutoSize.RestReachedExactly`); otherwise it commits ever larger widths
  (`AutoSize.MaxSizeDrifts`, `AutoSize.WideContainerDrifts`).
* Six consecutive login failures span a lock-out only for one login at a time; with k in flight it is
  5 + k and no fewer (`Throttle.RateBound`, `Throttle.RateBoundTight`).
* A registration can end with fewer than two TXT rows, exactly when SQLite drops the error of a slot
  insert (`StoreLaws.TwoRowsKeptExactly`, `StoreLaws.SlotLost`).
* The newer of two TXT values is safe from the next write exactly when its time is later
  (`StoreLaws.NewerKeptExactly`, `StoreLaws.NewerLost`).
* A request need not be authorized any more when its value is written: it is exactly if the password
  then on record is still the one it carries (`Api.AuthorizedExactly`, `Api.RotatedStillWrites`).
* The error of a commit is dropped, so a recorded version can outrun its columns, exactly for
  databases that lack certain columns (`Upgrade.OutrunExactly`). The error of the version read is
  dropped, so a run can empty the TXT rows, exactly by going through the step to version 1
  (`Upgrade.ValuesKeptExactly`). One small database suffers both (`Upgrade.OldDatabaseSuffers`).

## Model

| member | source | states |
|---|---|---|
| Clipboard.ParseText | ui/src/components/reui/data-grid/data-grid-cell-selection.tsx:89-145 | the stateful scan over index, field, row and quote flag yields exactly the grid the codec assigns to the text, for every text |
| Clipboard.RunField | ui/src/components/reui/data-grid/data-grid-cell-selection.tsx:69-75 | a printed field, bare or quoted, is read back as the same field when a delimiter or the end follows |
| Clipboard.RunGrid | ui/src/components/reui/data-grid/data-grid-cell-selection.tsx:78-82 | printed rows are read back row by row, the last field of the last row still open, for each of the three row separators |
| Clipboard.RoundTrip | ui/src/components/reui/data-grid/data-grid-cell-selection.tsx:69-145 | parsing the printed text of any non-empty grid of non-empty rows gives the grid back, minus a final lone empty field after other rows |
| Clipboard.RoundTripTerminated | ui/src/components/reui/data-grid/data-grid-cell-selection.tsx:139-142 | with one row separator appended the round trip is exact for every such grid |
| Clipboard.RoundTripExactly | ui/src/components/reui/data-grid/data-grid-cell-selection.tsx:139-142 | the printed text parses back to the grid if and only if the grid does not end in a row that is one empty field after other rows |
| Clipboard.SeparatorIrrelevant | ui/src/components/reui/data-grid/data-grid-cell-selection.tsx:124-131 | LF, CR and CRLF as row separator give the same parse |
| Clipboard.PlainText | ui/src/components/reui/data-grid/data-grid-cell-selection.tsx:69-145 | plain fields are printed as they are between tabs and CRLF, and text of that form parses into them with LF, CR or CRLF, a final empty line left out |
| Clipboard.PrintsQuote | ui/src/components/reui/data-grid/data-grid-cell-selection.tsx:69-75 | a field with a quote is printed between quotes with that quote doubled |
| Clipboard.PrintsDelimiter | ui/src/components/reui/data-grid/data-grid-cell-selection.tsx:69-75 | a field with a tab or line end is printed between quotes as it is |
| Clipboard.InnerQuotesStay | ui/src/components/reui/data-grid/data-grid-cell-selection.tsx:114-133 | a quote after the beginning of a field is a character of it |
| Clipboard.UnclosedTakesAll | ui/src/components/reui/data-grid/data-grid-cell-selection.tsx:97-113 | a quoted field that is never closed takes the rest of the text, delimiters included |
| Table.FilterPosition | ui/src/components/reui/data-grid/data-grid-cell-selection.tsx:459-467 | the filtered index space: an index that passes sits at the position counted by those before it |
| Batches.ApplyReads | ui/src/components/reui/data-grid/data-grid.tsx:613-622 | after a batch a cell holds the value of the last change made to it, or its old value if no change names it |
| Batches.UndoRestores | ui/src/components/reui/data-grid/data-grid-cell-selection.tsx:669-686 | a batch and then its inverse restores the data on every cell, also when the batch names a cell twice |
| Batches.RedoRepeats | ui/src/components/reui/data-grid/data-grid-cell-selection.tsx:669-686 | inverting twice gives the same changes with rejections dropped, so redo reproduces the first result |
| Batches.UndoStackRestores | ui/src/components/reui/data-grid/data-grid-cell-selection.tsx:669-686 | undoing any history of batches newest first restores the data it started from |
| Plans.OneOutcomePerTarget | ui/src/components/reui/data-grid/data-grid-cell-selection.tsx:617-652 | each target that is not skipped occurs exactly once in the batch, as a change or as a rejection, never as both |
| Plans.BatchFaithful | ui/src/components/reui/data-grid/data-grid-cell-selection.tsx:514-520 | every change of a built batch remembers the value its cell had when the batch was built |
| Plans.BatchEffect | ui/src/components/reui/data-grid/data-grid-cell-selection.tsx:617-652 | applying a batch writes to each written target its own value and leaves rejected and skipped targets as they were |
| Plans.BatchFrame | ui/src/components/reui/data-grid/data-grid-cell-selection.tsx:617-652 | no cell outside the targets is changed or even mentioned |
| Builders.CopyRegion | ui/src/components/reui/data-grid/data-grid-cell-selection.tsx:447-477 | the nested walk yields exactly the formatted cells of shown rows by selectable columns, or nothing when no row is shown |
| GridLaws.CopyCovers | ui/src/components/reui/data-grid/data-grid-cell-selection.tsx:457-471 | a copy takes exactly the shown rows and selectable columns of the region, in order |
| GridLaws.CopyTakes | ui/src/components/reui/data-grid/data-grid-cell-selection.tsx:467-472 | of each cell the text by the column's format or else its string form, empty for a missing value |
| Builders.BuildClear | ui/src/components/reui/data-grid/data-grid-cell-selection.tsx:484-526 | the three nested loops produce the clears of every region in order, or nothing when no cell is writable |
| Builders.TileBlock | ui/src/components/reui/data-grid/data-grid-cell-selection.tsx:148-163 | field (r, c) of the tiling is the block field at r and c modulo the block row count and that row's length, empty where missing |
| Builders.BuildPaste | ui/src/components/reui/data-grid/data-grid-cell-selection.tsx:545-667 | sizes, tiles and walks the next shown rows and selectable columns from the corner; equals the batch planned over those targets, none when there is no target; the rectangle to select is the smallest around the targets |
| Builders.HandleMove | ui/src/components/reui/data-grid/data-grid-cell-selection.tsx:900-928 | while the mouse is over a cell the extension is the number of visible rows, or of columns, from the region to it, the larger one; elsewhere it stays |
| Builders.CommitFill | ui/src/components/reui/data-grid/data-grid-cell-selection.tsx:930-1029 | the batch is the plan over the rendered rows inside and below the region; the selection grows over exactly the cells filled |
| GridLaws.FillReachesMouse | ui/src/components/reui/data-grid/data-grid-cell-selection.tsx:850-928 | a fill down ends on the row under the mouse, a fill right at its column, and there is none while the mouse is not beyond the region |
| GridLaws.DragGoesFarther | ui/src/components/reui/data-grid/data-grid-cell-selection.tsx:914-921 | the fill goes the way in which the mouse is farther from the region, down if it is as far both ways |
| GridLaws.SelectionEndsAtMouse | ui/src/components/reui/data-grid/data-grid-cell-selection.tsx:1015-1028 | after a fill the selection ends on the row, or at the column, where the mouse was |
| GridLaws.FillDownReaches | ui/src/components/reui/data-grid/data-grid-cell-selection.tsx:850-865 | a fill down is about the next visible rows below the region in its fillable columns |
| GridLaws.FillRightReaches | ui/src/components/reui/data-grid/data-grid-cell-selection.tsx:866-876 | a fill right is about the visible rows of the region in the next fillable columns |
| GridLaws.FillIsDispatched | ui/src/components/reui/data-grid/data-grid-cell-selection.tsx:930-1011 | a fill is dispatched if and only if one region is selected, the drag extended it, and some target is not skipped |
| GridLaws.ClearUndoes | ui/src/components/reui/data-grid/data-grid-cell-selection.tsx:484-526 | undo after a clear or cut restores the data even when selected regions overlap |
| GridLaws.PasteUndoes | ui/src/components/reui/data-grid/data-grid-cell-selection.tsx:545-667 | undo after any paste restores the data |
| GridLaws.FillUndoes | ui/src/components/reui/data-grid/data-grid-cell-selection.tsx:930-1013 | undo after any fill restores the data |
| GridLaws.ClearEffect | ui/src/components/reui/data-grid/data-grid-cell-selection.tsx:479-526 | after a clear a cell holds its column's clear value if and only if some region contains it and it is shown, selectable and writable; every other cell is unchanged |
| GridLaws.ClearCount | ui/src/components/reui/data-grid/data-grid-cell-selection.tsx:500-523 | a clear names a cell once for each region that contains it, if it is shown, selectable and writable there |
| GridLaws.ClearsNothingExactly | ui/src/components/reui/data-grid/data-grid-cell-selection.tsx:525 | there is nothing to clear if and only if no selected cell that is shown can be edited |
| GridLaws.PasteReaches | ui/src/components/reui/data-grid/data-grid-cell-selection.tsx:577-615 | a single field, or a block whose extents divide those of the region, is repeated over as many rows and columns as the region has, any other block pasted once, over the next shown rows and selectable columns from the corner |
| GridLaws.PasteFillsRegion | ui/src/components/reui/data-grid/data-grid-cell-selection.tsx:539-544 | over a region on screen a block that repeats into it fills exactly the region's rows and selectable columns |
| GridLaws.PasteEffect | ui/src/components/reui/data-grid/data-grid-cell-selection.tsx:617-652 | what a paste leaves in each target and reports of it, for the field that falls on it |
| GridLaws.PasteIsDispatched | ui/src/components/reui/data-grid/data-grid-cell-selection.tsx:545-660 | a paste is dispatched if and only if the region has a selectable column and a row is shown from its top on |
| GridLaws.PasteOutcomes | ui/src/components/reui/data-grid/data-grid-cell-selection.tsx:617-652 | whatever the shape of the block each target gets exactly one outcome, a change or a rejection, decided from the block repeated row by row and field by field |
| GridLaws.PasteCycles | ui/src/components/reui/data-grid/data-grid-cell-selection.tsx:539-544 | for an h by w block the target in row i and column j takes block[i mod h][j mod w] |
| GridLaws.PasteFrame | ui/src/components/reui/data-grid/data-grid-cell-selection.tsx:602-607 | a paste never touches or reports a cell outside its targets |
| GridLaws.FillDownEffect | ui/src/components/reui/data-grid/data-grid-cell-selection.tsx:944-962 | the target at offset k below the region takes the value of source row k mod n of its own column, once, if it is writable |
| GridLaws.FillRightEffect | ui/src/components/reui/data-grid/data-grid-cell-selection.tsx:963-1008 | each target right of the region takes the value of the region column at its offset modulo the region width, through that column's format and its own parse; it stays if it is read-only or the parse refuses, and has one outcome exactly if it is writable |
| GridLaws.FillRightIsPaste | ui/src/components/reui/data-grid/data-grid-cell-selection.tsx:976-999 | crossing into a column that parses does what pasting the source cell's copied text there would do, except that unwritable cells are skipped |
| GridLaws.FillSparesSource | ui/src/components/reui/data-grid/data-grid-cell-selection.tsx:850-875 | no fill changes or rejects a cell of the region it copies from |
| PasteBack.PasteKeeps | ui/src/components/reui/data-grid/data-grid-cell-selection.tsx:617-652 | a paste leaves the data unchanged if and only if every target keeps its value under the text it receives |
| PasteBack.PasteStaysInside | ui/src/components/reui/data-grid/data-grid-cell-selection.tsx:577-615 | a paste stays in the rows of its region if and only if it covers no more rows than the region shows or nothing is shown below, and likewise for the columns |
| PasteBack.PasteBackExactly | ui/src/components/reui/data-grid/data-grid-cell-selection.tsx:447-667 | for any region, rows off screen included: copying it and pasting the text back changes nothing if and only if every cell reached by a repeat of the block keeps its value under the text it gets |
| PasteBack.UnrepeatedIsSafe | ui/src/components/reui/data-grid/data-grid-cell-selection.tsx:585-598 | in particular whenever the copied block is not repeated |
| PasteBack.PasteBackUnchanged | ui/src/components/reui/data-grid/data-grid-cell-selection.tsx:447-667 | for a region on screen: if and only if it is not two rows of one selectable column with an empty last field, or that last cell keeps its value under the first field |
| PasteBack.LastRowLost | ui/src/components/reui/data-grid/data-grid-cell-selection.tsx:139-142 | two text cells of which the lower one is empty do change |
| PasteBack.PasteLeavesRegion | ui/src/components/reui/data-grid/data-grid-cell-selection.tsx:577-598 | with the inner rows of a region hidden, pasting a copy back writes a cell below the region |
| PasteBack.PasteBackFails | ui/src/components/reui/data-grid/data-grid-cell-selection.tsx:447-667 | there are sheets of both kinds |
| Resize.Session.constructor | ui/src/components/reui/data-grid/data-grid-table.tsx:223-255 | the limit loop computes the range of admissible relative changes over all leaves |
| Resize.Session.UpdateOffset | ui/src/components/reui/data-grid/data-grid-table.tsx:261-314 | every leaf is sized by the one clamped change; sizes are committed only on request |
| Resize.Session.EndResize | ui/src/components/reui/data-grid/data-grid-table.tsx:316-324 | only the first of several racing ends commits |
| Resize.LimitsExact | ui/src/components/reui/data-grid/data-grid-table.tsx:231-255 | the computed range contains a change exactly when every leaf may take the size it would get |
| Resize.DragStaysWithinLimits | ui/src/components/reui/data-grid/data-grid-table.tsx:266-281 | for every mouse position each leaf stays within its own limits and all leaves scale by one common positive factor |
| Resize.DragFollowsMouse | ui/src/components/reui/data-grid/data-grid-table.tsx:266-273 | the drag follows the mouse unclamped if and only if that keeps every leaf within its limits |
| Resize.DragGoesAsFarAsItCan | ui/src/components/reui/data-grid/data-grid-table.tsx:266-273 | where the limits hold it back, no admissible change is nearer to the one the mouse asks for |
| Resize.EdgeFollowsMouse | ui/src/components/reui/data-grid/data-grid-table.tsx:222-273 | without limits the width of a single column changes by exactly the way of the mouse, mirrored if its edge is |
| Resize.RoundsToNearest | ui/src/components/reui/data-grid/data-grid-table.tsx:276-281 | committed sizes are the nearest hundredths |
| Resize.CommitStaysWithinLimits | ui/src/components/reui/data-grid/data-grid-table.tsx:276-281 | the sizes rounded to hundredths stay within limits given in hundredths |
| AutoSize.Controller.Apply | ui/src/components/reui/data-grid/data-grid.tsx:511-594 | one measurement: re-arm after a reset, coalesce, stand down for foreign widths, absorb free space |
| AutoSize.Controller.Reflow | ui/src/components/reui/data-grid/data-grid.tsx:473-509 | re-absorbs the free space as it would measure with the growth removed, never below the floor, dropping sub-pixel changes |
| AutoSize.Controller.TimerFires | ui/src/components/reui/data-grid/data-grid.tsx:541-545 | the trailing timer reflows the latest parked measurement |
| AutoSize.EveryStepKeeps | ui/src/components/reui/data-grid/data-grid.tsx:451-596 | every measurement, timer, layout change, drag and reset keeps: a managed width with a current measurement is parked with its exact free space or would not be changed by it |
| AutoSize.FreshReflow | ui/src/components/reui/data-grid/data-grid.tsx:495-508 | a fresh measurement commits exactly when the width it would go for is a pixel or more away, and then that width |
| AutoSize.SettledFillsContainer | ui/src/components/reui/data-grid/data-grid.tsx:495-502 | after any history a settled column is rendered within one pixel of max(floor, container minus other columns), even if its stored width is beyond its limits |
| AutoSize.SettledWidth | ui/src/components/reui/data-grid/data-grid.tsx:495-502 | after any history of a fresh controller a settled column is rendered within one pixel of the room left, or of its minimum size or, without one, the width it started from |
| AutoSize.NeverBelowStart | ui/src/components/reui/data-grid/data-grid.tsx:500-501 | no width is ever committed below the minimum size or, without one, below the width the column started from |
| AutoSize.Coalesces | ui/src/components/reui/data-grid/data-grid.tsx:533-548 | measurements within 150 ms of the last commit wait for a timer 150 ms after the latest, later ones are applied at once |
| AutoSize.SettledStaysPut | ui/src/components/reui/data-grid/data-grid.tsx:502 | measuring a settled column again commits nothing, immediately or by timer: no drift, no oscillation |
| AutoSize.ComesToRest | ui/src/components/reui/data-grid/data-grid.tsx:464-471 | one measurement and two timers, each commit being re-measured, bring a managed column to rest, with one more timer per pixel its stored width starts above the maximum size |
| AutoSize.UserWidthSurvives | ui/src/components/reui/data-grid/data-grid.tsx:489-494 | no sequence of measurements, timers and layout changes overwrites a width the controller did not write |
| AutoSize.ResetRefills | ui/src/components/reui/data-grid/data-grid.tsx:520-525 | after a reset the next measurement with room absorbs it all again |
| AutoSize.RestReachedExactly | ui/src/components/reui/data-grid/data-grid.tsx:499-502 | from any managed state the loop comes to rest if and only if the space to fill is less than one pixel above the maximum size |
| AutoSize.MaxSizeNeverRests | ui/src/components/reui/data-grid/data-grid.tsx:499-508 | beyond that every measurement commits a width at least a pixel larger although the rendered width no longer changes |
| AutoSize.MaxSizeDrifts | ui/src/components/reui/data-grid/data-grid.tsx:499-508 | so n measurements grow the stored width by at least n pixels |
| AutoSize.WideContainerDrifts | ui/src/components/reui/data-grid/data-grid.tsx:581-593 | the first fill of a column with a maximum size in a wide container is such a state |
| Throttle.SessionStore.Prune | pkg/api/adminauth.go:94-106 | the two deletion loops leave exactly the unexpired tokens and the failure records that are not expired lock-outs |
| Throttle.SessionStore.Issue | pkg/api/adminauth.go:54-67 | a new token runs for the configured time in a pruned store; if none can be drawn nothing changes |
| Throttle.SessionStore.Valid | pkg/api/adminauth.go:70-85 | accepts exactly a known, unexpired, non-empty token and forgets an expired one |
| Throttle.SessionStore.LockedOut | pkg/api/adminauth.go:109-117 | locked exactly with five or more recorded failures before their deadline |
| Throttle.SessionStore.RecordFailure | pkg/api/adminauth.go:119-129 | counts one more failure and restarts the lock-out |
| Throttle.WebAdminLogin | pkg/api/adminauth.go:190-230 | one login: each of the five outcomes, when it occurs, and what it leaves in the store; with fewer than five failures on record or the lock-out over, right credentials log in |
| Throttle.LockoutEnds | pkg/api/adminauth.go:109-117 | in every run an address without failures since its last login, or whose latest one is 15 minutes old, passes the check |
| Throttle.LockoutHolds | pkg/api/adminauth.go:109-129 | in every run five failures, each less than 15 minutes after the one before, keep an address out for 15 minutes after the last |
| Throttle.FourAreFree | pkg/api/adminauth.go:109-117 | in every run fewer than five failures since the last login never keep an address out |
| Throttle.PruneIsExact | pkg/api/adminauth.go:94-106 | pruning drops exactly what has expired and changes no later lock-out |
| Throttle.IssueForgetsExpired | pkg/api/adminauth.go:54-67 | handing out a token forgets exactly what has expired |
| Throttle.UnlockedMeansLate | pkg/api/adminauth.go:109-117 | whoever passes the lock check comes at least a lock-out after the fifth last failure, even if a prune reset the counter |
| Throttle.FailKeeps | pkg/api/adminauth.go:190-213 | recording a failure of a login checked earlier keeps the bound on early logins and on all windows |
| Throttle.RateBound | pkg/api/adminauth.go:94-135 | in every interleaving with at most k logins in flight, 5 + k consecutive failures of one address span at least the lock-out; k = 1 is the sequential case of six |
| Throttle.RateBoundTight | pkg/api/adminauth.go:190-213 | for every k there is a run with 4 + k failures at one instant, so the bound cannot be lowered |
| Throttle.PruningUnobservable | pkg/api/adminauth.go:70-106 | forgetting expired tokens never changes an answer: accepted if and only if the last grant was not revoked and has not run out |
| Throttle.AcceptedExactly | pkg/api/adminauth.go:54-92 | in every run a token is accepted if and only if it was granted, not revoked since and has not run out |
| Resolver.LatestServes | pkg/api/identify.go:43-57 | the latest of any puts for an address is served for an hour, empty answers included, and when it has run out nothing is |
| Resolver.SplitCached | pkg/api/identify.go:62-78 | while other requests put into the shared cache, each distinct non-empty address is served from what the cache holds when it is read or queued once, in order |
| Resolver.PendingHas | pkg/api/identify.go:70-77 | an address is queued if and only if its first occurrence finds no live entry |
| Resolver.PendingApart | pkg/api/identify.go:65-78 | queued addresses are distinct, non-empty and not served from the cache |
| Resolver.SequentialCombines | pkg/api/identify.go:59-110 | a sequential resolver yields the cached part plus the queued addresses that have a host |
| Resolver.StepKeeps | pkg/api/identify.go:84-107 | every step of every goroutine keeps the slot count, one lookup per address and a truthful result map |
| Resolver.Bounded | pkg/api/identify.go:82-89 | in every interleaving at most eight lookups are in flight and none runs twice |
| Resolver.ReturnsSequentialResult | pkg/api/identify.go:59-110 | in every interleaving a call that returns has looked up exactly once each distinct non-empty address without a live entry when read, and no other, has cached each, and its map equals the sequential one |
| Resolver.AnswersExactly | pkg/api/identify.go:59-110 | a returned call answers each listed address by its live cache entry or else by the first name of its lookup without the final dot, leaves out those without a host, and answers no other address |
| Resolver.CacheHoldsAnswers | pkg/api/identify.go:95-104 | without other requests the cache ends with the first name of each lookup, and an empty host where there was none |
| Resolver.CachedForAnHour | pkg/api/identify.go:53-57 | and serves each for an hour from the moment it was put there |
| Resolver.EveryStepCounts | pkg/api/identify.go:84-107 | each step brings the call one step closer to its end |
| Resolver.NeverStuck | pkg/api/identify.go:82-107 | until it returns some step is always possible: the slot channel cannot deadlock |
| Text.ValidTXTExactly | pkg/api/util.go:52-59 | a TXT value is accepted if and only if it is 43 characters of the base64url alphabet |
| Text.ValidKeyExactly | pkg/api/util.go:26-33 | a key is accepted if and only if it is 40 characters of the base64url alphabet |
| Text.SanitizeLength | pkg/acmedns/util.go:17-21 | sanitizing shortens a string exactly when it contains a foreign character, and otherwise keeps it |
| Text.SanitizeConcat | pkg/acmedns/util.go:17-21 | sanitizing keeps each letter, digit, hyphen and underscore and drops each other character |
| Text.InAlphabet | pkg/acmedns/util.go:28 | the 64 letters are exactly the characters sanitizing keeps |
| Text.DrawsSpellDistinctly | pkg/acmedns/util.go:26-36 | each draw spells its own letter, so different draws spell different passwords |
| Text.ValidSubdomainExactly | pkg/api/util.go:46-50 | a subdomain is a letter or digit, alone or followed by at most 61 letters, digits and hyphens and a letter or digit |
| Text.InLetters | pkg/api/util.go:46-50 | letters and digits are the 26 capitals, the 26 small letters and the ten digits |
| Text.GeneratePassword | pkg/acmedns/util.go:26-36 | the buffer loop spells the drawn letters |
| Text.DrawnIsValid | pkg/acmedns/util.go:23-36 | a generated password of 40 is a valid key, one of 43 a valid TXT value |
| Store.Database.RegisterWithName | pkg/database/db.go:389-444 | all or nothing except for slot inserts whose errors are dropped; the record carries the hash and the sealed copy of one fresh password |
| Store.Database.Update | pkg/database/db.go:522-550 | overwrites one of the oldest rows of the subdomain; an unknown subdomain is no error and changes nothing |
| Store.Database.GetTXTForDomain | pkg/database/db.go:486-520 | the values of the first two rows of the sanitized name, in table order, or a failure |
| Store.Database.GetByUsername | pkg/database/db.go:446-484 | the first registration of that user; nothing if there is none, the query fails or the address list cannot be decoded |
| Store.Database.GetBySubdomain | pkg/database/db.go:651-669 | found exactly when registered and the query succeeds, with the copy decrypted under the present key |
| Store.Database.UpdateDomainName | pkg/database/db.go:672-690 | relabels, and reports an unknown subdomain |
| Store.Database.DeleteDomain | pkg/database/db.go:694-729 | removes registration and rows together or not at all, and reports an unknown subdomain |
| Store.Database.RotatePassword | pkg/database/db.go:734-758 | replaces hash and sealed copy together by those of one fresh password, and returns it |
| Store.Database.SetLastSource | pkg/database/db.go:764-780 | notes a non-empty address and nothing else |
| Store.OldestExists | pkg/database/db.go:530-533 | a subdomain with rows has an oldest one to recycle |
| StoreLaws.Registers | pkg/database/db.go:389-444 | a registration that does not fail, with a new user, hash and subdomain, adds its record and two empty slots |
| StoreLaws.RefusesRepeats | pkg/database/db.go:58-65 | one that would repeat a user, hash or subdomain adds nothing |
| StoreLaws.FailedChangesNothing | pkg/database/db.go:389-780 | a call of which a statement or the commit fails changes nothing |
| StoreLaws.ChangesFields | pkg/database/db.go:672-780 | rotation, relabelling and the note of a source change exactly their fields of that subdomain's record |
| StoreLaws.DeletesAll | pkg/database/db.go:694-729 | a deletion leaves nothing of its subdomain and everything else |
| StoreLaws.ShowsFields | pkg/database/db.go:604-623 | the management read shows a registration's own fields, the password if the copy opens, and its newest write |
| StoreLaws.SealedOpens | pkg/acmedns/crypto.go:60-107 | a sealed copy opens under its own key and no other; without a key or randomness nothing is stored |
| StoreLaws.GeneratedIsShown | pkg/database/db.go:604-623 | a password generated under a key is shown again while the record keeps its copy and the server that key |
| StoreLaws.TwoRowsKeptExactly | pkg/database/db.go:374-444 | every operation, failed ones included, keeps two rows per registration and none elsewhere, except exactly a registration committed on SQLite although one of its slot inserts failed |
| StoreLaws.SlotLost | pkg/database/db.go:374-444 | the first registration of a SQLite database can be such a one |
| StoreLaws.TwoRowsAlways | pkg/database/db.go:374-444 | otherwise it holds in every state of every run |
| StoreLaws.OthersUntouched | pkg/database/db.go:522-780 | an operation on one subdomain leaves the rows and records of every other subdomain untouched |
| StoreLaws.HoldsLastTwo | pkg/database/db.go:522-550 | in every run with strictly increasing write times above 0 the two rows of a registered subdomain are exactly the last two written |
| StoreLaws.NewestPresentOneLost | pkg/database/db.go:522-550 | whatever the clock says, the value just written is present and one write removes at most one value |
| StoreLaws.NewerKeptExactly | pkg/database/db.go:530-533 | the next write is sure to keep the newer of two values if and only if it carries the later time |
| StoreLaws.NewerLost | pkg/database/db.go:530-533 | with two equal times the engine may drop either value |
| StoreLaws.LastWriteIsNewest | pkg/database/db.go:590-602 | last active is the newest write time among the rows |
| StoreLaws.CredentialsKept | pkg/database/db.go:389-444 | registration, rotation, relabelling and deletion keep every sealed copy equal to the hashed password |
| StoreLaws.CredentialsAlways | pkg/database/db.go:734-758 | so in every run, whatever keys the server was restarted with |
| Api.GetUserFromRequest | pkg/api/auth.go:65-88 | yields the registration exactly for a parsable user, a well-formed key and the right password, and nothing if the read fails |
| Api.Auth | pkg/api/auth.go:21-63 | lets through exactly requests that authenticate, come from an allowed address and name their own subdomain |
| Api.AdmittedExactly | pkg/api/auth.go:21-88 | admitted are exactly the requests that name a registered user with its password, a key of 40 base64url characters, from an allowed address for its own subdomain |
| Api.RegisteredIsAdmitted | pkg/api/auth.go:21-88 | a new registration is admitted at once with its user, password and subdomain |
| Api.RotatedIsAdmitted | pkg/api/auth.go:21-88 | after a rotation the new password is admitted and no other |
| Api.WebUpdatePost | pkg/api/update.go:11-63 | the status of each branch behind the gate; only a well-formed request changes the tables, by one update and, if that succeeds, a note of its source |
| Api.ServeUpdate | pkg/api/auth.go:21-63 | gate and handler: refused exactly if not authorized, and otherwise a history of admission, write and note |
| Api.ShownPasswordWorks | pkg/database/db.go:604-623 | in every run any password the management read shows is accepted for that registration, whichever key the server runs with |
| Api.ShownExactly | pkg/acmedns/crypto.go:60-107 | the password is shown exactly when its copy was sealed under the present key, and always decrypts under its own |
| Api.EventRows | pkg/api/update.go:23-38 | one event leaves a row as it was, makes it an empty slot, or writes a well-formed value for a request admitted earlier or a DNS check |
| Api.ValuesAccountedFor | pkg/api/update.go:23-58 | from empty slots on, with any events between admission and write, every value in the store is 43 base64url characters written by a request admitted earlier for that subdomain or by its DNS check |
| Api.DeletedGetsNoValue | pkg/api/update.go:38 | a registration deleted between admission and write gets no value |
| Api.AuthorizedExactly | pkg/api/auth.go:25-56 | an admitted request is still authorized at a later event, such as its write, if and only if the password then on record, followed through rotations and deletion, is the one it carries |
| Api.RotatedStillWrites | pkg/api/auth.go:25-56 | a history in which it is not and the value is still written |
| Api.HistoryIsBehaviour | pkg/api/update.go:23-58 | a history of the server is a run of its store, so the laws of every run of the store hold of it |
| Api.ReplyCarriesLastTwo | pkg/nameserver/handler.go:54-103 | with increasing write times a TXT reply for a registered subdomain carries the configured records and exactly the last two values written, whatever else happens |
| Api.AnswersAccountedFor | pkg/nameserver/handler.go:85-103 | so is every database value in a TXT answer, for the subdomain that was asked |
| Api.ReplyAccountedFor | pkg/nameserver/handler.go:54-83 | a whole TXT reply holds configured records, the own challenge key, and otherwise only accounted values |
| Api.QuestionReachesLabel | pkg/nameserver/util.go:5-13 | a question below a label reads that registration's rows, whatever its letter case |
| Upgrade.Database.AddColumns | pkg/database/db.go:264-315 | adds the missing columns and the version in one transaction or, on an error, nothing |
| Upgrade.Database.HandleUpgradeTo1 | pkg/database/db.go:317-371 | rebuilds the TXT rows in one transaction; errors of deletes and inserts are dropped on SQLite |
| Upgrade.Database.HandleUpgrades | pkg/database/db.go:182-205 | the chain is a run of the start-up state machine |
| Upgrade.Database.Init | pkg/database/db.go:101-167 | a whole start-up is a run of the state machine that ends ready exactly when it reports no error; without faults it does, at version 4 with every column |
| Upgrade.SmoothRunGoesOn | pkg/database/db.go:101-205 | on any consistent database a start-up without faults never stops before it is ready, at version 4 with every column, recorded once in a new database |
| Upgrade.FailedStepChangesNothing | pkg/database/db.go:264-371 | a statement that fails with an error leaves the database as it was before its step and ends the start-up |
| Upgrade.VersionRecordedOnce | pkg/database/db.go:155-163 | a version that is read is not recorded a second time |
| Upgrade.RegistrationsSurvive | pkg/database/db.go:101-371 | in every run, with every kind of fault, crash and restart, registrations are unchanged and no column or table is lost |
| Upgrade.ValuesSurvive | pkg/database/db.go:143-147 | from version 1 on the TXT rows are untouched in every run in which no read of the version fails, whatever commits and statements fail |
| Upgrade.VersionsBacked | pkg/database/db.go:264-315 | every recorded version has its columns in every run in which no commit of added columns is lost, and a start-up that finishes is at version 4 with all columns |
| Upgrade.RowsRebuilt | pkg/database/db.go:317-371 | from version 0 the TXT rows are the old ones or the rebuilt ones at every moment, and rebuilt once a start-up finishes, if the steps to version 1 lose no statement and no commit unnoticed |
| Upgrade.RebuiltExactly | pkg/database/db.go:352-371 | that step leaves the rebuilt rows if and only if its commit is lost and they were there before, or it deletes the old ones and no insert fails, or undeleted old rows stand in for the failed inserts |
| Upgrade.RebuiltIsTwoRows | pkg/database/db.go:353-363 | rebuilt rows are two empty slots for each registration and nothing else |
| Upgrade.HandsOverSoundTables | pkg/database/db.go:101-371 | credentials stay sound in every run; two rows per registration are kept if no version read fails, and restored from version 0 |
| Upgrade.RecordedBackedExactly | pkg/database/db.go:272-278 | after a step the recorded version has its columns if and only if the commit was lost or the columns of the believed version were there |
| Upgrade.OutrunExactly | pkg/database/db.go:272-278 | a database has a run that finishes with a version ahead of its columns if and only if it lacks a later column other than the last step's own, or has no version and lacks any; otherwise no run at all gets there |
| Upgrade.ValuesKeptExactly | pkg/database/db.go:143-147 | in every run in which no dropped statement fails, the TXT rows of a versioned database end as they were if and only if no step to version 1 goes through, or all were empty slots anyway; and no such step is taken while the version is read |
| Upgrade.OldDatabaseSuffers | pkg/database/db.go:101-371 | a version 1 database with one value is exposed to a lost commit, and a start-up whose only fault is a failed read loses the value |
| Nameserver.Server.ParseRecords | pkg/nameserver/parseconfig.go:12-37 | the index holds exactly the parsable configured records in order, the SOA last; a line that yields neither record nor error ends the program |
| Nameserver.ParsedLineByLine | pkg/nameserver/parseconfig.go:12-24 | the configured records are those of the lines in order, each read in lower case |
| Nameserver.Server.AppendRR | pkg/nameserver/parseconfig.go:39-52 | appending keeps the index equal to the list |
| Nameserver.Server.GetRecord | pkg/nameserver/handler.go:141-160 | answers like a search of the plain list: that name and type in order, or the aliases when there are none |
| Nameserver.AnsweredExactly | pkg/nameserver/handler.go:141-160 | a configured record is answered if and only if it has the name and type asked for or, when none has both, is an alias of the name |
| Nameserver.AnsweredInOrder | pkg/nameserver/handler.go:141-160 | a record configured later is answered later |
| Nameserver.Server.IsAuthoritative | pkg/nameserver/handler.go:105-120 | the label walk terminates and says yes if and only if the name or one of its proper label suffixes is served |
| Nameserver.CoversExactly | pkg/nameserver/handler.go:105-120 | for a name without backslashes: if and only if it, or what follows one of its dots, is the own domain or configured |
| Nameserver.Server.AnswerTXT | pkg/nameserver/handler.go:85-103 | non-empty values become TXT records in order |
| Nameserver.Server.Answer | pkg/nameserver/handler.go:54-83 | records, code and authority of one question |
| Nameserver.Server.ReadQuery | pkg/nameserver/handler.go:35-52 | all records, the last code, authority if any question has it |
| Nameserver.RepliesSnoc | pkg/nameserver/handler.go:35-52 | each further question adds its records behind the others, sets the code and may add authority |
| Nameserver.OwnChallengeAnswered | pkg/nameserver/handler.go:54-83 | the own challenge name is answered with the own key, whatever is stored |
| Nameserver.UndottedIsLabel | pkg/nameserver/util.go:5-13 | a question without a dot inside, or with one in front, is its own label |
| Nameserver.Server.HandleRequest | pkg/nameserver/handler.go:10-33 | only queries without or with version 0 EDNS are answered; an EDNS request gets an OPT record of size 512 |
| Nameserver.AuthorityInherited | pkg/nameserver/handler.go:105-120 | authority extends to every name with labels prepended, escaped dots included |
| Nameserver.OneQuestion | pkg/nameserver/handler.go:35-83 | NXDOMAIN comes without answers and exactly when nothing is known under the name; the SOA is in the authority section exactly for an authoritative NXDOMAIN (section 3 of RFC 2308) |
| Nameserver.DenialWithRecordsExactly | pkg/nameserver/handler.go:35-52 | a law of the loop over several questions: NXDOMAIN comes with records if and only if nothing is known under the last name and an earlier question can be answered |
| Nameserver.DenialWithRecordsHappens | pkg/nameserver/handler.go:35-52 | the loop does so for the own challenge followed by an unknown name |
| Nameserver.SoaComesLast | pkg/nameserver/parseconfig.go:24-37 | the SOA follows every configured record of its name |

## Left out

- PasteBack.PasteBackExactly: a region without a shown row or without a selectable column has no copy to paste back.
- Builders.HandleMove: the cell under the mouse is an input, and the preview it paints is left out.
- AutoSize.Controller.Apply: one auto-size column; the hand-over between several such columns is not modelled. The timer may fire at any time once armed, which covers the 150 ms delay.
- Upgrade.Database.HandleUpgradeTo1: dropping two legacy columns on PostgreSQL, and a transaction that cannot be begun, which ends the process.
- Upgrade.Database.Init: versions beyond 4 and version strings that are not numbers.
- StoreLaws.HoldsLastTwo: speaks of a subdomain while it stays registered; deletion ends its rows.
- Nameserver.DenialWithRecordsExactly: which messages the DNS library hands to the handler is not part of this model; for one question there is no such reply (`Nameserver.OneQuestion`).
- The choice of the active region from focus and selection, the visible cell count and keyboard movement.
- Address lists and CIDR matching; the gate takes their verdict as a function.
- HTTP routing, CORS, TLS, configuration, logging, the static interface and the React components.
- The network side of the DNS check and of the domain match run, and reverse lookups themselves.
- SQL engines, connection pools, timeouts and contexts; a timed-out statement is a failing one.
- Unicode: strings are sequences of characters, and lower-casing is ASCII.

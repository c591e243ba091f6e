# Task list: a Dafny model of the data layer of `script.js`

`script.js` is a single-page task list. Under its DOM code is a small
sequential core. It is an ordered array `tasks` of `{ id, text, completed }`
records, newest first. Handlers add, toggle, edit and remove entries. A
pending-delete id (`toDeleteId`) drives a confirm/cancel modal, and a filter
rule decides which rows stay visible. This project models that core as pure
functions over an immutable `seq<Task>` and a small controller record, and
proves what the handlers promise.

Modules, one file each:

- `Wrappers` (`wrappers.dfy`): `Option`, standing for JavaScript's `null` and for a rejected input.
- `Text` (`text.dfy`): `String.prototype.trim`. `IsWs` is the ECMAScript WhiteSpace and LineTerminator set. `Trim` cuts the input between two index scans, `FirstNonWs` and `LastNonWs`, and comes with lemmas that fully characterise the result.
- `Store` (`store.dfy`): the `Task` record and the store operations. Lookups use first-match semantics (`find` / `findIndex`), and ids are never assumed unique.
- `Filter` (`filter.dfy`): the hide rule of `applyFilter` and the list of rows it leaves on screen.
- `Controller` (`controller.dfy`): the page state. That is the tasks, the filter, the pending id and whether the modal is open. It also has one handler per user event, a dispatcher `Step`, a trace runner `Run`, and the properties that relate several events.

Ids come from `Date.now()` in the source. Here every id is a parameter (`now`
for a new task, `now + 1` for the seeded example).

The modal's cancel button (`script.js:30`) and a backdrop click
(`script.js:38-40`) both call `closeModal` and nothing else. They do not reset `toDeleteId`, so
the id stays pending until the next request or confirmation replaces or
clears it. `Controller.RequestThenDismiss` states this.

## Model

| member | source | states |
|---|---|---|
| Text.IsWsMatchesTables | script.js:46 | the characters `trim` removes are exactly the ECMAScript WhiteSpace code points plus the four line terminators |
| Text.Trim | script.js:46-47 | the trimmed text is empty exactly when the input is all white space; otherwise it begins and ends with a non-white-space character |
| Text.TrimOfPadded | script.js:46 | trim returns exactly the middle of any string split into blank margins and a clean (or empty) middle |
| Text.TrimIsSlice | script.js:46 | trim keeps one contiguous slice of its input and drops only blank margins on either side |
| Text.TrimIdempotent | script.js:138 | trimming an already trimmed value changes nothing |
| Text.TrimClean | script.js:138 | a non-empty text with no white space at either end is its own trim |
| Store.IndexOf | script.js:172-173 | `findIndex` gives -1 exactly when no task has the id; otherwise it gives the position of a task with that id, and no earlier task has it |
| Store.Find | script.js:109-110 | `find` gives nothing exactly when no task has the id; otherwise it gives a task with that id that has no earlier task with the same id |
| Store.Add | script.js:45-52 | a blank input is rejected; otherwise the result is one longer, its head is a pending task with the given id and the trimmed text, and its tail is exactly the old collection; stored texts stay clean |
| Store.Toggle | script.js:108-111 | length, ids and texts are kept; a flag changes at exactly one place, the first task with the id; a missing id changes nothing |
| Store.Retext | script.js:144 | only the first matching task's text changes, to the given text; ids, flags and length are kept; a missing id changes nothing |
| Store.Edit | script.js:137-146 | a blank value is rejected; otherwise ids, flags and length are kept, and only the first matching task's text may change, to the trimmed value |
| Store.RemoveById | script.js:171-174 | a missing id changes nothing; otherwise the result is one shorter, tasks before the first match are kept in place, and tasks after it move up by one |
| Store.RemoveThenReinsert | script.js:174 | putting the removed task back at its old position rebuilds the original collection, so order is kept |
| Store.RemoveMultiset | script.js:172-174 | as a bag, removal loses exactly the first task with the id |
| Store.RemoveUndoesAdd | script.js:51-52 | removing the id of a just-added task restores the old collection, even when an older task has the same id |
| Store.ToggleTwice | script.js:108-111 | toggling the same id twice restores the collection |
| Store.RetextTwice | script.js:144 | a second rename of the same id overrides the first |
| Store.RetextSame | script.js:144 | renaming the first task with an id to its own text changes nothing |
| Store.EditRestores | script.js:137-146 | editing a task and then editing it back to its old clean text restores the collection |
| Filter.Visible | script.js:197-201 | `completed` shows exactly the completed rows, `pending` exactly the others, and every other filter value hides nothing |
| Filter.Shown | script.js:194-203 | as a bag, the shown rows hold each task the filter admits exactly as often as the store does, and no task it hides; there are no more rows than tasks |
| Filter.ShownMembers | script.js:194-203 | a task is on screen exactly when it is stored and the filter admits it |
| Filter.ShownAppend | script.js:196-202 | the pass keeps row order: filtering two consecutive parts of the list gives the two filtered parts one after the other |
| Filter.ShownOne | script.js:197-201 | a single row is shown exactly when the filter admits its flag |
| Filter.ShowsEverything | script.js:198-201 | under `all`, or any value that is neither `completed` nor `pending`, the shown list is the whole store in order |
| Filter.CompletedAndPendingPartition | script.js:199-200 | the `completed` view and the `pending` view together hold every task exactly once |
| Controller.Init | script.js:216-219 | the page starts with one pending, clean example task whose id is `now + 1` and whose text is the seeded sentence; the filter is `all`, every row is visible, nothing is pending and the modal is closed |
| Controller.OnAdd | script.js:45-56 | a blank input raises the add notice and leaves the state unchanged; otherwise only the tasks change, gaining the new task on top of the old list |
| Controller.OnEditSave | script.js:137-146 | a blank value raises the edit notice and leaves the state unchanged; otherwise only the tasks change, to exactly the result of `Store.Edit`, and their count is kept |
| Controller.OnDeleteRequested | script.js:166-169 | requesting a delete only records the pending id and opens the modal |
| Controller.OnDeleteConfirmed | script.js:31-37 | confirming removes the first task with the pending id and clears the pending id; with nothing pending the tasks are unchanged; the modal closes either way |
| Controller.OnModalDismissed | script.js:38-40 | cancel or a backdrop click closes the modal, and a click inside the content does nothing; tasks, pending id and filter are never touched |
| Controller.OnFilterChosen | script.js:186-193 | choosing a filter changes only the filter, never the tasks, the pending id or the modal |
| Controller.Step | script.js:19-40 | a check click toggles the first task with the id and nothing else; Escape changes nothing; cancel only closes the modal; only a filter choice changes the filter; only a delete request sets the pending id and only a confirmation clears it |
| Controller.StepPreservesValid | script.js:137-146 | no single event stores an empty or untrimmed text |
| Controller.RunPreservesValid | script.js:45-52 | along any sequence of events, starting from a state with clean texts, every stored text stays non-empty and trimmed |
| Controller.AlertOnlyOnBlankInput | script.js:139-142 | a notice appears exactly when an add or edit is submitted blank, and then the state is unchanged |
| Controller.OnlyDataEventsChangeTasks | script.js:156-158 | Escape, delete requests, cancel, modal clicks and filter choices never change the tasks |
| Controller.RequestThenConfirm | script.js:31-37 | request and then confirm removes exactly the first task with that id, clears the pending id and closes the modal |
| Controller.RequestThenDismiss | script.js:30-40 | request and then cancel or backdrop click keeps every task and closes the modal; the id stays pending |
| Controller.ToggleTwiceRestores | script.js:108-116 | clicking a check twice returns the page to the same state |
| Controller.AddThenDeleteRestores | script.js:171-174 | adding a task and then deleting its id with confirmation restores the task list |
| Controller.SaveUnchangedEdit | script.js:120-146 | saving the edit field with its pre-filled text leaves the state unchanged and raises no notice |

## Left out

- DOM construction, `innerHTML`, `querySelector`, listener wiring, focus and text selection are left out. They are UI plumbing. A rejected input is modelled as "state unchanged" plus the notice text the `alert` would show.
- The entrance and exit animations (`script.js:96-104`, `181-182`) are left out. `requestAnimationFrame`, `setTimeout` and CSS classes affect only timing and looks.
- Dark mode (`script.js:210-213`) and the active/`aria-selected` marking of filter buttons (`script.js:188-191`) are left out. They are presentation only.
- `Date.now()` is a clock read. The model takes the id as an input (`now`).
- The `li.dataset.completed` cache is left out, and the filter reads each task's own flag. A row's cache is set from its task when the row is built (`script.js:63`). A check click (`script.js:84`) toggles the first task with the row's id (`script.js:109-111`) but writes the new flag into the clicked row (`script.js:112`). With unique ids the cache always equals the task's flag. The DOM row list is taken to be in store order, since both put new tasks on top.
- Filter.Shown: reads the task's flag, not the row's cache, so it differs from the page when two tasks share an id. Take tasks `[A{id 5, pending}, B{id 5, pending}]` and click B's check. A becomes completed, B's row cache becomes `'1'` and A's stays `'0'`. Under the `completed` filter the page shows B's row, while `Shown` gives `[A]`.
- Store.Edit: the source captures the task object when the edit field opens (`script.js:121`). It writes the new text into that object, even if the task was removed meanwhile (a no-op on the array), or if a newer task with the same id was added in front. The model looks up the first task with the id when the edit is saved. The two differ only when duplicate ids are created while an edit field is open.
- The DOM quirk where `blur` can fire `saveEdit` again after the field is swapped out is left out. It is an artefact of node replacement.
- The `enableEdit` handler itself only builds the edit field. Its data effect is pre-filling the field with the first matching task's text (`Store.Find`), and `Controller.SaveUnchangedEdit` covers that.
- The modal's initial visibility is set by the page markup, which is not part of this model. `Controller.Init` takes it to start closed.
- Text.IsWs lists the Unicode space separators by code point. JavaScript strings are UTF-16, but every white-space code point is a single unit, so trimming agrees.

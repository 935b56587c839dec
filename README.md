# TODO list state machine

A model of the in-memory TODO list of a small client-side page. The page owns
an ordered list of entries (`id`, `title`, `completed`), seeded with three
example entries. It hands three transitions to its children:

- **Add** appends a new, not completed entry.
- **ToggleComplete** sets the flag of the entries with a given id.
- **Delete** removes the entries with a given id.

Each rendered row emits two intents: the toggle intent `(id, !completed)` and
the delete intent `id`. The add form keeps a text buffer. On submit it drops
the attempt when the buffer is blank after `trim()`. Otherwise it passes the
untrimmed buffer to Add and clears the field.

Modules, one per source file plus one for the wiring:

- `TodoItem` (`todo_item.dfy`): the `Todo` record, which is exactly an integer
  id, a title string and a boolean flag. It also holds the two row intents.
- `TodoPage` (`todo_page.dfy`): the seed list and the three transitions, as
  functions from the old list to the new one. Toggle and Delete are the
  source's `map` and `filter`. They act on **every** entry with the id, not
  only the first.
- `AddTodoForm` (`add_todo_form.dfy`): the ECMAScript whitespace set, `trim`,
  and the blank guard. The form is a class with a `buffer` field, and its
  `Change` and `Submit` methods update that field.
- `TodoApp` (`todo_app.dfy`): the page state is the list plus the form
  buffer, and user gestures are steps on it. A run is a sequence of gestures.
  The invariant proved over runs is that no reachable list holds a blank
  title.

Three consequences of the code are kept as they are:

- Add keeps the title as given. The form passes the raw buffer, not the
  trimmed one (src/components/AddTodoForm.tsx:15), and Add does no
  validation of its own (src/app/page.tsx:18-25).
- Toggle and Delete are `map` and `filter` (src/app/page.tsx:29, 34), so
  when several entries share an id, all of them are affected.
  `TogglePointwise` and `DeleteMultiset` state this.
- Nothing makes ids unique: the new id is a clock reading
  (src/app/page.tsx:20). `AddUniqueIds` shows that Add keeps ids unique
  exactly when the new id is not already in use. Toggle and Delete keep them
  unique unconditionally.

The `Todo` record of src/components/TodoItem.tsx:3-7 is the datatype
`TodoItem.Todo`. It has exactly the three fields `id: int`, `title: string`
and `completed: bool`. It is a type rather than an operation, so it has no
row below.

## Model

| member | source | states |
|---|---|---|
| `TodoItem.ToggleIntent` | src/components/TodoItem.tsx:28 | the toggle intent carries the row's own id and the negation of its flag |
| `TodoItem.DeleteIntent` | src/components/TodoItem.tsx:33 | the delete intent carries the row's id and nothing else |
| `TodoItem.ToggleIntentTwice` | src/components/TodoItem.tsx:28 | the intent taken from a toggled row asks for the row's original flag |
| `TodoPage.InitialTodos` | src/app/page.tsx:9-13 | the seed list has three entries with ids 1, 2, 3 (so unique), flags true, false, false |
| `TodoPage.CountId` | src/app/page.tsx:34 | the number of entries with an id is zero exactly when no entry has it |
| `TodoPage.Toggled` | src/app/page.tsx:29 | the `map` callback: id and title are kept; the flag becomes the given one when the id matches and stays otherwise |
| `TodoPage.Add` | src/app/page.tsx:18-25 | Add makes the list one longer, keeps the old list as an unchanged prefix, and appends the given id, the untrimmed title and `completed == false` |
| `TodoPage.AddUniqueIds` | src/app/page.tsx:19-24 | on a list with unique ids, Add keeps ids unique if and only if the new id is not already present |
| `TodoPage.Toggle` | src/app/page.tsx:27-31 | Toggle keeps the length |
| `TodoPage.TogglePointwise` | src/app/page.tsx:29 | every matching entry keeps id and title and gets the given flag; every other entry is unchanged, in place |
| `TodoPage.ToggleAbsent` | src/app/page.tsx:29 | toggling an id no entry has gives back the same list |
| `TodoPage.ToggleOverride` | src/app/page.tsx:29 | a second toggle of the same id overrides the first |
| `TodoPage.ToggleIdempotent` | src/app/page.tsx:29 | toggling twice with the same flag equals toggling once |
| `TodoPage.ToggleRestores` | src/app/page.tsx:29 | when the matching entries all have flag b, setting b changes nothing, and toggling away and back to b restores the list exactly |
| `TodoPage.ToggleUniqueIds` | src/app/page.tsx:29 | Toggle keeps ids unique |
| `TodoPage.Delete` | src/app/page.tsx:33-35 | Delete never lengthens the list, and no entry with the id remains |
| `TodoPage.DeleteConcat` | src/app/page.tsx:34 | Delete of a joined list is the join of the Deletes: relative order is kept |
| `TodoPage.DeleteMultiset` | src/app/page.tsx:34 | each entry with another id is kept exactly as often as it occurred; entries with the id are kept zero times |
| `TodoPage.DeleteMembers` | src/app/page.tsx:34 | an entry is in the result exactly when it was in the list with another id |
| `TodoPage.DeleteLength` | src/app/page.tsx:34 | the length drops by the number of entries with the id |
| `TodoPage.DeleteRemovingNothing` | src/app/page.tsx:34 | a Delete that removes nothing returns the list unchanged |
| `TodoPage.DeleteAbsent` | src/app/page.tsx:34 | deleting an id no entry has gives back the same list |
| `TodoPage.DeleteIdempotent` | src/app/page.tsx:34 | deleting the same id twice equals deleting it once |
| `TodoPage.DeleteAfterToggle` | src/app/page.tsx:27-35 | a toggle followed by a delete of the same id equals the delete alone |
| `TodoPage.AddThenDelete` | src/app/page.tsx:18-35 | adding under an id not in use and then deleting that id gives back the list |
| `TodoPage.DeleteUniqueIds` | src/app/page.tsx:34 | Delete keeps ids unique |
| `AddTodoForm.IsWhitespace` | src/components/AddTodoForm.tsx:14 | the characters `trim()` strips: ECMAScript WhiteSpace and LineTerminator. It has no contract; `WhitespaceSet` states its behaviour on ASCII, and the `Trim` contract uses it |
| `AddTodoForm.WhitespaceSet` | src/components/AddTodoForm.tsx:14 | space, tab, line feed and carriage return are whitespace; ASCII letters and digits are not |
| `AddTodoForm.TrimStart` | src/components/AddTodoForm.tsx:14 | the result is a suffix of the input; everything dropped is whitespace; the result does not start with whitespace |
| `AddTodoForm.TrimEnd` | src/components/AddTodoForm.tsx:14 | the result is a prefix of the input; everything dropped is whitespace; the result does not end with whitespace |
| `AddTodoForm.TrimSlice` | src/components/AddTodoForm.tsx:14 | cutting leading whitespace and then trailing whitespace leaves the trimmed slice (`TrimmedAt`) of the input |
| `AddTodoForm.Trim` | src/components/AddTodoForm.tsx:14 | `trim()` returns the contiguous slice of the input that starts where the leading whitespace ends; everything it drops before and after is whitespace; the slice neither starts nor ends with whitespace |
| `AddTodoForm.IsBlank` | src/components/AddTodoForm.tsx:14 | the guard `!newTodo.trim()`: the trimmed text is empty. It has no contract; `BlankIffAllWhitespace` states its meaning |
| `AddTodoForm.BlankIffAllWhitespace` | src/components/AddTodoForm.tsx:14 | the trimmed text is empty if and only if every character is whitespace |
| `AddTodoForm.TrimIdempotent` | src/components/AddTodoForm.tsx:14 | trimming twice equals trimming once |
| `AddTodoForm.Submitted` | src/components/AddTodoForm.tsx:12-17 | a submit emits nothing exactly when the buffer is all whitespace (empty included); otherwise it emits the raw buffer, which is not blank |
| `AddTodoForm.SubmittedExamples` | src/components/AddTodoForm.tsx:14-15 | "" and "   " emit nothing; " Write tests " is emitted untrimmed |
| `AddTodoForm.Form.constructor` | src/components/AddTodoForm.tsx:10 | the buffer starts empty |
| `AddTodoForm.Form.Change` | src/components/AddTodoForm.tsx:24 | an input change replaces the buffer with the new value |
| `AddTodoForm.Form.Submit` | src/components/AddTodoForm.tsx:12-17 | a blank buffer emits nothing and is left unchanged; otherwise exactly one title (the raw buffer) is emitted and the buffer becomes empty |
| `TodoApp.Init` | src/app/page.tsx:16 | the first render holds exactly the seed list (three entries with unique ids) and an empty field |
| `TodoApp.Step` | src/app/page.tsx:45-54 | one gesture: typing changes only the field; a submit is `SubmitForm`, a title click `ClickRowTitle`, a delete click `ClickRowDelete`; the list grows by at most one entry |
| `TodoApp.SubmitForm` | src/app/page.tsx:45 | submit wired to Add: an all-whitespace field changes nothing; otherwise the raw text is appended with the clock reading as id and `completed == false`, and the field is cleared |
| `TodoApp.ClickRowTitle` | src/components/TodoItem.tsx:28 | a title click is Toggle with the row's intent: the length is kept, the clicked row flips its flag and keeps id and title, every entry with another id is unchanged in place, and the field is untouched |
| `TodoApp.ClickRowDelete` | src/components/TodoItem.tsx:33 | a delete click is Delete with the row's id: the list gets shorter, no entry with that id is left, and an entry is kept exactly when it was there with another id |
| `TodoApp.TypeAndSubmit` | src/components/AddTodoForm.tsx:12-24 | driving the `Form` object through `Change` and `Submit` gives the same page state as the gestures `Type` then `Submit` |
| `TodoApp.AddLetsBlankIn` | src/app/page.tsx:18-25 | Add on its own has no guard: a whitespace-only title passed straight to it ends up in the list |
| `TodoApp.InitialTitlesNotBlank` | src/app/page.tsx:9-13 | no seed title is blank |
| `TodoApp.SubmitKeepsTitlesNotBlank` | src/components/AddTodoForm.tsx:14-15 | what the form passes to Add never brings a blank title into the list |
| `TodoApp.ToggleKeepsTitlesNotBlank` | src/app/page.tsx:29 | Toggle keeps every title, so it keeps them non-blank |
| `TodoApp.DeleteKeepsTitlesNotBlank` | src/app/page.tsx:34 | Delete keeps only existing entries, so it keeps titles non-blank |
| `TodoApp.StepKeepsTitlesNotBlank` | src/app/page.tsx:45-54 | no single gesture (typing, submit, title click, delete click) lets a blank title in |
| `TodoApp.RunKeepsTitlesNotBlank` | src/app/page.tsx:45-54 | no sequence of gestures lets a blank title in |
| `TodoApp.ReachableTitlesNotBlank` | src/app/page.tsx:16 | every list reachable from the first render has no blank title |
| `TodoApp.RunSnoc` | src/app/page.tsx:45-54 | gestures take effect one after another, in order |
| `TodoApp.ClickTitleTwice` | src/components/TodoItem.tsx:28 | clicking a row's title twice restores that row exactly, and restores the whole list when ids are unique |
| `TodoApp.ScenarioAdd` | src/app/page.tsx:18-25 | typing "Write tests" and submitting appends {now, "Write tests", false} and clears the field |
| `TodoApp.ScenarioToggle` | src/app/page.tsx:27-31 | then clicking the second row's title (`ClickTitle(1)`) marks entry 2 done and leaves the others alone |
| `TodoApp.ScenarioDelete` | src/app/page.tsx:33-35 | then deleting the third row (`ClickDelete(2)`) removes entry 3 and keeps 1, 2 and the new entry in order |
| `TodoApp.Scenario` | src/app/page.tsx:16-35 | the whole walk-through as one run from the first render |

## Left out

- `Date.now()` (src/app/page.tsx:20) is a clock read. The new id is a parameter (`now`), and nothing is assumed about its freshness.
- The ids are `number` in the source and integers here. Fractional ids, NaN and `===` on such values are not modelled; the list only ever holds the seed ids and clock readings.
- JavaScript strings are UTF-16 code units; here they are sequences of Unicode scalar values. The whitespace set is the ECMAScript WhiteSpace and LineTerminator characters, fixed at the Unicode version of ECMAScript 2024.
- Rendering, CSS classes and the strikethrough/dimmed styling (src/app/page.tsx:37-59, src/components/TodoItem.tsx:18-39, src/components/AddTodoForm.tsx:19-35) are presentation only.
- React mechanics are not modelled: `useState`, re-rendering, `key` props and `e.preventDefault()` (src/components/AddTodoForm.tsx:13). A transition's new list is simply the next state.
- `LogoutButton` (src/components/LogoutButton.tsx) only shows a browser alert and changes no state.
- `TodoApp.ClickRowTitle` and `TodoApp.ClickRowDelete` give no effect to a click on a row that is not rendered. The interface cannot produce such a click.

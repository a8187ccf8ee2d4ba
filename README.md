# Todo app state machine

A model of the one component of a single-screen React Native todo app,
`App` in `App.js`. The component holds four pieces of state: the draft
text shared by the add field and the edit dialog, the ordered list of
`{id, text}` items, whether the edit dialog is open, and the id of the item
being edited (or `null`). Its event handlers rewrite that state: add,
delete, start editing, update, text change, cancel, and the main button,
which updates while editing and adds otherwise.

The model has three modules:

- `TodoList` (`todo_list.dfy`) covers the values the handlers compute. It
  has the `Todo` record and the whitespace test behind `trim()`.
  `Without` models the `filter` that deletes and `Retitled` the `map` that
  updates. The module also holds the lemmas about these functions: order,
  multiplicity, absent ids and uniqueness of ids.
- `App` (`app.dfy`) is the class `TodoApp`. Its fields are the four state
  cells, and each handler is one atomic method. Each method's contract
  gives the whole new state in terms of the old state and the `TodoList`
  functions. The class invariant `Valid()` says ids are unique, which the
  id-keyed list rendering relies on.
- `Interactions` (`interactions.dfy`) holds sequences of user events run
  against a `TodoApp`, such as add/add/delete, and edit, cancel, then add.
  Each states what the screen then shows.

The model keeps three behaviours of the code as written:

- Add stores the draft untrimmed. `trim()` is only a guard.
- Update writes the draft to every item whose id matches, with no blank
  check.
- Cancel closes the dialog but keeps both the draft and the edit target.
  The next Add therefore submits the text typed in the dialog.

`Date.now().toString()` has no clock in the model. Add and the main
button take the new id as an argument (`freshId`). Uniqueness of ids is
kept when that id is not already in the list.

`null` for the edit target is `Option.None`. An update with no target
leaves the list as it was, but it still clears the draft.

Two details of the code as written:

- Cancel clears neither the draft nor `currentTodoId` (`App.js:89`); it
  only sets `isEditing` to false.
- `updateTodo` itself does not test `isEditing` (`App.js:28-33`). Both of
  its callers, the main button (`App.js:65`) and the dialog's Update button
  (`App.js:88`, inside the `Modal` shown only while `isEditing`,
  `App.js:78`), reach it only in edit mode. The model's `UpdateTodo` is
  defined on every state, which generalises the source rather than
  departing from it.

## Model

| member | source | states |
|---|---|---|
| TodoList.TrimStart | App.js:12 | the result is the suffix of the draft left after its leading whitespace; it does not start with whitespace |
| TodoList.TrimEnd | App.js:12 | the result is the prefix of the draft left after its trailing whitespace; it does not end with whitespace |
| TodoList.Trim | App.js:12 | `trim()` returns a contiguous piece of the draft whose ends are not whitespace; it is empty exactly when the draft is blank, so the add guard passes exactly when the draft has a non-whitespace character |
| TodoList.AppendUniqueIff | App.js:13 | appending the new item keeps ids unique if and only if the list had unique ids and the new id was not in it |
| TodoList.Without | App.js:19 | the delete never lengthens the list and no item with the deleted id survives it |
| TodoList.WithoutCounts | App.js:19 | after a delete, every item with another id occurs exactly as often as before, and items with the deleted id occur zero times |
| TodoList.WithoutMember | App.js:19 | an item is in the filtered list exactly when it was in the list and its id is not the deleted one |
| TodoList.WithoutConcat | App.js:19 | filtering a concatenation gives the concatenation of the filtered parts, so the relative order of items is kept |
| TodoList.WithoutIsSubsequence | App.js:19 | the filtered list is a subsequence of the original: the items left keep their original order |
| TodoList.WithoutAbsent | App.js:18-20 | deleting an id that no item carries leaves the list unchanged |
| TodoList.WithoutPresent | App.js:18-20 | deleting an id that some item carries makes the list strictly shorter |
| TodoList.WithoutUniquePresent | App.js:18-20 | with unique ids, deleting a present id removes exactly one item |
| TodoList.WithoutIds | App.js:19 | every id left after a delete was in the list before and is not the deleted id |
| TodoList.WithoutKeepsUnique | App.js:19 | a delete never creates a duplicate id |
| TodoList.WithoutIdempotent | App.js:18-20 | deleting the same id twice is the same as deleting it once |
| TodoList.Retitled | App.js:29 | an update keeps the length and the id at every position; an item whose id is the target gets the draft as its text, blank or not; every other item is unchanged |
| TodoList.RetitledAbsent | App.js:29 | when the target is `null` or no item carries it, the list is unchanged |
| TodoList.RetitledUniqueTarget | App.js:29 | with unique ids, targeting the item at position k changes that one item's text and nothing else |
| TodoList.RetitledKeepsUnique | App.js:29 | an update never creates a duplicate id |
| App.TodoApp.constructor | App.js:5-8 | the initial state has an empty draft, an empty list, add mode and no edit target |
| App.TodoApp.AddTodo | App.js:11-16 | a blank draft changes nothing; otherwise the untrimmed draft is appended as one new last item under the fresh id, the earlier items stay in order, and the draft becomes empty; the mode and target are untouched; unique ids are kept when the fresh id is new |
| App.TodoApp.RemoveTodo | App.js:18-20 | the list becomes the filtered list; the draft, mode and target are untouched; unique ids are kept |
| App.TodoApp.StartEditing | App.js:22-26 | the target becomes the item's id, the draft becomes its text, the dialog opens, and the list is untouched |
| App.TodoApp.UpdateTodo | App.js:28-33 | the list becomes the retitled list for the old target and old draft; then the draft is emptied, the dialog closes and the target becomes `null`; unique ids are kept |
| App.TodoApp.SetTodo | App.js:63 | a text-change event replaces the draft and changes nothing else |
| App.TodoApp.Cancel | App.js:89 | Cancel closes the dialog and leaves the list, the draft and the target as they were |
| App.TodoApp.PressMain | App.js:65 | the main button has exactly the effect of the update while editing, and of the add otherwise |
| Interactions.AddAddRemove | App.js:11-20 | adding "A", adding "B" and deleting the first leaves exactly the item "B" with its id |
| Interactions.AddBlank | App.js:11-16 | pressing Add with a blank draft adds nothing and leaves the draft in the field |
| Interactions.AddEditCommit | App.js:22-33 | adding an item, tapping it, retyping and pressing Update leaves that one item with the same id and the new text, even a blank one; the dialog is closed and the field empty |
| Interactions.AddEditCancelAdd | App.js:86-89 | after editing and cancelling, the item is untouched, the main button adds the text typed in the dialog as a new item, and the stale target remains |
| Interactions.EditItem | App.js:22-33 | on a state with unique ids, editing the item at position k through the dialog changes exactly that item's text and returns to add mode |
| Interactions.EditThenCancel | App.js:86-89 | starting an edit, typing any number of changes and cancelling leaves the list unchanged; the last text typed stays in the draft and the target stays set |

## Left out

- The JSX tree, the `Modal`, `FlatList`, `Switch` and `TextInput` widgets, and the style sheet (`App.js:45-150`). They are rendering only. The model does not capture that the dialog covers the list while editing, so it does not assume the Delete buttons are unreachable then.
- The dark-mode switch and the theme colours (`App.js:9`, `App.js:35-43`). They are a display-only boolean and do not affect the list.
- `Date.now()` as a clock (`App.js:13`). The new id is a caller-supplied argument. Two adds in the same millisecond get the same id in the source; the model shows this only as a fresh id that already occurs in the list, after which `Valid()` is no longer promised.
- React's hook semantics: batched `setState`, re-rendering, and handlers closing over stale state. Each handler is one atomic transition on the current state.
- `trim()` is modelled on Unicode scalar values with the ECMAScript WhiteSpace and LineTerminator characters. Strings are `seq<char>`; UTF-16 surrogate pairs are not modelled.
- App.TodoApp.RemoveTodo and App.TodoApp.UpdateTodo: there is no invariant that an open edit's target is still in the list, because the code does not enforce one. Deleting the target while editing is possible in the model, and the later update then leaves the list unchanged (TodoList.RetitledAbsent).

# To-do list component, modelled in Dafny

This project models `TodoList`, the only component with logic in a small
client-side to-do app. The component holds an ordered list of to-do items and
the text being typed. It adds, toggles and deletes items. After every change it
writes the whole list to a single storage slot, and it reads that slot once
when it mounts. It also moves focus after adding and after deleting a row.

The project has four modules:

- `JsString` (`js_string.dfy`) models JavaScript's `String.prototype.trim`,
  which decides whether the typed text counts as blank. It strips ECMAScript
  WhiteSpace (TAB, VT, FF, ZWNBSP and every Unicode "Zs" space) and
  LineTerminator (LF, CR, LS, PS) from both ends.
- `TodoList` (`todo_list.dfy`) holds the item type and the pure transforms.
  `Add` appends unless the text is blank. `Toggle` maps by id. `Delete`
  filters by id. `FocusAfterDelete` picks the focus target after a delete.
  Lemmas cover round trips, no-op cases, id uniqueness, order and the focus
  rule.
- `Session` (`todo_session.dfy`) holds the class `TodoSession`. Its fields are
  the `todos` list, the `input` text, the `stored` slot (`Option<seq<Todo>>`)
  and the last `focus` target. Its methods are the component's handlers and
  its save effect `Save`. The handlers that change the list call a pure
  transform and then save. `SetInput` changes only the input. A blank add and
  an unhandled key change nothing. The invariant `Valid()` says that the slot
  always holds the current list.
- `Scenarios` (`scenarios.dfy`) holds client methods that replay the UI
  walkthroughs using only the class contracts. One adds a task, toggles it
  and reloads. The other deletes two rows in turn and checks where focus goes.

The clock is a parameter: `Date.now()` becomes the `now: int` argument of
`AddTodo`, `HandleKeyDown` and `Click`. Storage is an abstract slot holding
the list, with no JSON encoding. Reloading the page is `Session.Reload`: a new
session is mounted on the old session's slot.

Two points about the code that the model keeps as they are:

- The component uses `Date.now()` as the new item's id and never checks that
  it is unused. `AddKeepsIdsUniqueIff` proves that ids stay unique exactly
  when the text is blank or `now` is unused.
- Mounting writes the empty initial list to the slot first. The save effect
  of the first commit runs before the loaded list is rendered, and the loaded
  list is written on the next commit. `Mount` performs both writes in that
  order.

Two details of event handling are modelled as the code has them:

- A click on a row's checkbox runs two handlers in the same click dispatch:
  the checkbox's change handler and the row's click handler. Both map the
  list of one render, so the row is toggled once, not twice (`Click`, case
  `RowCheckbox`).
- The delete button is a sibling of the row element, not a child. It also
  stops propagation. So it deletes and never toggles.

## Model

| member | source | states |
|---|---|---|
| `JsString.TrimStart` | app/components/TodoList.tsx:32 | the result is a suffix of the input; every dropped character is white space; the result does not start with white space |
| `JsString.TrimEnd` | app/components/TodoList.tsx:32 | the result is a prefix of the input; every dropped character is white space; the result does not end with white space |
| `JsString.Trim` | app/components/TodoList.tsx:32 | `trim()` is the slice of the input that remains once white space is dropped from both ends: everything before and after the slice is white space, and neither end of a non-empty result is |
| `JsString.TrimEmptyIffAllTrimmable` | app/components/TodoList.tsx:32 | `trim()` is empty exactly when every character is white space or a line terminator |
| `TodoList.Occurrences` | app/components/TodoList.tsx:54 | the number of items carrying an id is at most the length, and it is zero exactly when the id is absent |
| `TodoList.Add` | app/components/TodoList.tsx:31-40 | blank text returns the list unchanged; otherwise the length grows by one, the old list is a prefix, the last item is `(now, text untrimmed, not completed)`, and `now` joins the ids |
| `TodoList.AddKeepsIdsUniqueIff` | app/components/TodoList.tsx:34-40 | on a list with unique ids, adding keeps them unique exactly when the text is blank or `now` is not already an id |
| `TodoList.Toggle` | app/components/TodoList.tsx:45-51 | same length and order, ids and texts unchanged, and an item's completion flips exactly when its id is the toggled one |
| `TodoList.ToggleTwice` | app/components/TodoList.tsx:45-51 | toggling an id twice restores the original list |
| `TodoList.ToggleAbsent` | app/components/TodoList.tsx:45-51 | toggling an id no item carries leaves the list equal to the original |
| `TodoList.ToggleKeepsIds` | app/components/TodoList.tsx:45-51 | toggling leaves the set of ids unchanged, so unique ids stay unique |
| `TodoList.Delete` | app/components/TodoList.tsx:53-54 | the length drops by exactly the number of items carrying the id |
| `TodoList.DeleteMembers` | app/components/TodoList.tsx:54 | an item survives the delete exactly when it was in the list and does not carry the id |
| `TodoList.DeleteIsSubsequence` | app/components/TodoList.tsx:54 | the surviving items keep their original relative order |
| `TodoList.DeleteAbsent` | app/components/TodoList.tsx:54 | deleting an id no item carries leaves the list equal to the original |
| `TodoList.DeleteIds` | app/components/TodoList.tsx:54 | the ids after a delete are the old ids minus the deleted one, so no new id appears and the deleted id is gone |
| `TodoList.DeleteKeepsIdsUnique` | app/components/TodoList.tsx:54 | deleting keeps unique ids unique |
| `TodoList.UniqueOccurrences` | app/components/TodoList.tsx:53-54 | with unique ids, an id occurs once if present and never otherwise, so deleting a present id shortens the list by exactly one |
| `TodoList.DeleteAt` | app/components/TodoList.tsx:53-54 | with unique ids, deleting the id of the row at `k` yields the list with exactly that row cut out |
| `TodoList.FocusAfterDelete` | app/components/TodoList.tsx:57-64 | focus goes to `Row(index)` exactly when a row exists at `index` in the new list, and to the input otherwise |
| `TodoList.FocusMovesToSuccessor` | app/components/TodoList.tsx:53-64 | with unique ids, deleting row `k` focuses row `k`, which now holds the old row `k + 1`; when the deleted row was last, focus goes to the input |
| `Session.TodoSession.Mount` | app/components/TodoList.tsx:9-25 | mounting starts with empty input and no focus; a present slot becomes the list and an absent slot leaves it empty; afterwards the slot holds the list |
| `Session.TodoSession.Save` | app/components/TodoList.tsx:23-25 | the slot is overwritten with the whole current list |
| `Session.TodoSession.SetInput` | app/components/TodoList.tsx:94 | typing replaces the input text and touches nothing else |
| `Session.TodoSession.AddTodo` | app/components/TodoList.tsx:31-43 | the list becomes `Add` of the old list and input, and is saved; blank input leaves the input text and focus as they were; otherwise the input is cleared and focused |
| `Session.TodoSession.ToggleTodo` | app/components/TodoList.tsx:45-51 | the list becomes `Toggle` of the old list and is saved; input and focus are unchanged |
| `Session.TodoSession.DeleteTodo` | app/components/TodoList.tsx:53-65 | the list becomes `Delete` of the old list and is saved; the input is unchanged; focus goes to `FocusAfterDelete(index, new list)` |
| `Session.TodoSession.HandleKeyDown` | app/components/TodoList.tsx:67-71 | Enter on the input performs exactly `addTodo`; any other key changes nothing |
| `Session.TodoSession.HandleItemKeyDown` | app/components/TodoList.tsx:73-85 | Enter or Space performs exactly the toggle and Delete or Backspace exactly the delete; the default action is prevented for exactly those four keys; any other key changes nothing |
| `Session.TodoSession.Click` | app/components/TodoList.tsx:99-143 | the add button adds; a click on the row or on its checkbox toggles the row exactly once; the delete button performs exactly the delete and no toggle |
| `Session.Reload` | app/components/TodoList.tsx:15-25 | mounting afresh on the slot of a session restores its list, so save then load is the identity |

## Left out

- Rendering, JSX, CSS classes and the `aria-*` attributes are not modelled. Only their effect on the state and the focus target is.
- The `todoRefs` array of row elements (app/components/TodoList.tsx:27-29) is not modelled. After a re-render it holds an element exactly at the indices `0 .. |todos| - 1`, which is the fact `FocusAfterDelete` uses.
- The `setTimeout(…, 0)` that defers focus until after the re-render, and the real DOM `focus()` calls, are not modelled. `DeleteTodo` records the focus target that the deferred callback chooses.
- Focus that moves because of a user's own click or Tab is not modelled. `focus` is only where the component last sent focus.
- `localStorage`, `JSON.stringify` and `JSON.parse` are replaced by the abstract slot, which can never fail. In the component, `localStorage.getItem` (app/components/TodoList.tsx:16) and `localStorage.setItem` (app/components/TodoList.tsx:24) can throw when storage is disabled or over quota, and the exception escapes the effect uncaught. Three cases are not modelled: such a throw; stored data that is not a JSON array of to-do items, which makes `JSON.parse` throw or the render fail (`"null"` passes the test at line 17 and `todos.map` at line 108 then fails); and a stored empty string, which the `if (savedTodos)` test treats as absent.
- `Date.now()` is not modelled; its reading is the `now` parameter.
- Text is a sequence of Unicode scalar values, while a JavaScript string is a sequence of UTF-16 code units and can hold lone surrogates, which the model cannot represent. No character `trim()` removes is a surrogate, so the blank test is unaffected.
- `Session.TodoSession.HandleKeyDown` does not model IME composition: a key event is taken to be exactly its `key` string.
- Filter modes are not modelled, because the component's code has no filter.
- The `Todo` type, imported from the `@/types` module, is not part of this model. Its three fields are taken from how the component uses them, with `id` an unbounded integer.
- `app/page.tsx` (an animation shell) and `next.config.ts` (build settings) carry no logic and are not modelled.

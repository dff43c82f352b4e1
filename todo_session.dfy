/** The mutable state of the to-do component: the list, the text being typed, the
    single storage slot the list is written to, and where focus was last sent.
    Handlers that change the list call a pure transform of `TodoList` and then
    persist; typing changes only the input, and a blank add or an unhandled key
    changes nothing. */
module Session {
  import opened TodoList

  datatype Option<T> = None | Some(value: T)

  /** Elements a click can land on, with the row's id and rendered position. */
  datatype ClickTarget =
    | AddButton
    | RowBody(id: int)
    | RowCheckbox(id: int)
    | DeleteButton(id: int, index: int)

  class TodoSession {
    /** The rendered list (`todos` state). */
    var todos: seq<Todo>
    /** The text in the input (`newTodo` state). */
    var input: string
    /** The storage slot under the key "todos"; `None` when nothing was ever saved. */
    var stored: Option<seq<Todo>>
    /** The element the component last moved focus to, if any. */
    var focus: Option<FocusTarget>

    /** After mounting, the slot always holds the current list. */
    ghost predicate Valid()
      reads this
    {
      stored == Some(todos)
    }

    /** Mounting on a slot `saved`: a stored list replaces the empty initial list;
        without one the list stays empty. Either way the slot then holds the list. */
    constructor Mount(saved: Option<seq<Todo>>)
      ensures Valid()
      ensures todos == if saved.Some? then saved.value else []
      ensures input == "" && focus == None
    {
      todos := [];
      input := "";
      focus := None;
      stored := saved;
      new;
      // The load effect only queues its update; the save effect of the same first
      // commit still writes the initial empty list.
      var loaded := saved;
      Save();
      if loaded.Some? {
        todos := loaded.value;
        Save();
      }
    }

    /** The save effect: the whole list overwrites the slot. */
    method Save()
      modifies this`stored
      ensures stored == Some(todos)
    {
      stored := Some(todos);
    }

    /** What `addTodo` does to the state, taking `now` as the clock reading. */
    twostate predicate AddEffect(now: int)
      reads this
    {
      todos == Add(old(todos), old(input), now) && stored == Some(todos)
      && if IsBlank(old(input)) then input == old(input) && focus == old(focus)
         else input == "" && focus == Some(Input)
    }

    /** What `toggleTodo(id)` does to the state. */
    twostate predicate ToggleEffect(id: int)
      reads this
    {
      todos == Toggle(old(todos), id) && stored == Some(todos)
      && input == old(input) && focus == old(focus)
    }

    /** What `deleteTodo(id, index)` does to the state, once its deferred focus
        callback has run. */
    twostate predicate DeleteEffect(id: int, index: int)
      reads this
    {
      todos == Delete(old(todos), id) && stored == Some(todos)
      && input == old(input) && focus == Some(FocusAfterDelete(index, todos))
    }

    /** Typing into the input (its change handler). */
    method SetInput(text: string)
      requires Valid()
      modifies this`input
      ensures Valid()
      ensures input == text
    {
      input := text;
    }

    /** `addTodo`: blank input changes nothing, not even the input; otherwise the
        item is appended and saved, the input is cleared and focused. */
    method AddTodo(now: int)
      requires Valid()
      modifies this
      ensures Valid()
      ensures AddEffect(now)
    {
      if IsBlank(input) {
        return;
      }
      todos := Add(todos, input, now);
      Save();
      input := "";
      focus := Some(Input);
    }

    /** `toggleTodo`: the new list is saved. */
    method ToggleTodo(id: int)
      requires Valid()
      modifies this
      ensures Valid()
      ensures ToggleEffect(id)
    {
      todos := Toggle(todos, id);
      Save();
    }

    /** `deleteTodo`: the filtered list is saved; after the re-render, focus goes to
        the row now at `index`, or to the input when there is none. */
    method DeleteTodo(id: int, index: int)
      requires Valid()
      modifies this
      ensures Valid()
      ensures DeleteEffect(id, index)
    {
      todos := Delete(todos, id);
      Save();
      focus := Some(FocusAfterDelete(index, todos));
    }

    /** `handleKeyDown` on the input: Enter adds, every other key does nothing. */
    method HandleKeyDown(key: string, now: int)
      requires Valid()
      modifies this
      ensures Valid()
      ensures key == "Enter" ==> AddEffect(now)
      ensures key != "Enter" ==> unchanged(this)
    {
      if key == "Enter" {
        AddTodo(now);
      }
    }

    /** `handleItemKeyDown` on the row at `index` carrying `id`: Enter or Space
        toggles, Delete or Backspace deletes, and exactly those four keys have their
        default action prevented; every other key does nothing. */
    method HandleItemKeyDown(key: string, id: int, index: int) returns (prevented: bool)
      requires Valid()
      modifies this
      ensures Valid()
      ensures prevented <==> key in {"Enter", " ", "Delete", "Backspace"}
      ensures key == "Enter" || key == " " ==> ToggleEffect(id)
      ensures key == "Delete" || key == "Backspace" ==> DeleteEffect(id, index)
      ensures !prevented ==> unchanged(this)
    {
      if key == "Enter" || key == " " {
        prevented := true;
        ToggleTodo(id);
      } else if key == "Delete" || key == "Backspace" {
        prevented := true;
        DeleteTodo(id, index);
      } else {
        prevented := false;
      }
    }

    /** A click. The add button adds. A click on the row toggles it. A click on the
        row's checkbox runs both the checkbox's change handler and the row's click
        handler in the same click dispatch: both map the list of one render, so
        the second write repeats the first and the row is toggled once. The delete
        button sits beside the row, not inside it, and also stops propagation: it
        deletes and never toggles. */
    method Click(target: ClickTarget, now: int)
      requires Valid()
      modifies this
      ensures Valid()
      ensures target.AddButton? ==> AddEffect(now)
      ensures target.RowBody? || target.RowCheckbox? ==> ToggleEffect(target.id)
      ensures target.DeleteButton? ==> DeleteEffect(target.id, target.index)
    {
      match target
      case AddButton =>
        AddTodo(now);
      case RowBody(id) =>
        ToggleTodo(id);
      case RowCheckbox(id) =>
        var rendered := todos;
        todos := Toggle(rendered, id);
        todos := Toggle(rendered, id);
        Save();
      case DeleteButton(id, index) =>
        DeleteTodo(id, index);
    }
  }

  /** Saving and then mounting afresh on the same slot restores the list. */
  method Reload(session: TodoSession) returns (reloaded: TodoSession)
    requires session.Valid()
    ensures reloaded.Valid()
    ensures reloaded.todos == session.todos && reloaded.stored == session.stored
    ensures reloaded.input == "" && reloaded.focus == None
  {
    reloaded := new TodoSession.Mount(session.stored);
  }
}

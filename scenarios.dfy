/** Walkthroughs of the component's user-level behaviour, checked against the
    contracts of `Session.TodoSession` alone. */
module Scenarios {
  import opened JsString
  import opened TodoList
  import opened Session

  /** Add a task, toggle it by clicking its row, reload: the task is still there,
      still completed. An add button click on an empty input adds nothing. */
  method AddToggleReload() {
    var s := new TodoSession.Mount(None);
    s.Click(AddButton, 7);
    assert s.todos == [];

    s.SetInput("buy milk");
    assert !IsBlank("buy milk") by {
      assert !IsTrimmable('b');
      TrimEmptyIffAllTrimmable("buy milk");
    }
    s.HandleKeyDown("Enter", 1);
    assert s.todos == [Todo(1, "buy milk", false)];
    assert s.input == "" && s.focus == Some(Input);

    s.Click(RowBody(1), 2);
    assert s.todos == [Todo(1, "buy milk", true)];

    var t := Reload(s);
    assert t.todos == [Todo(1, "buy milk", true)];
  }

  /** Two tasks loaded from storage; deleting the first focuses the second, which
      has moved up to row 0; deleting that one too focuses the input. */
  method DeleteMovesFocus() {
    var a, b := Todo(10, "A", false), Todo(11, "B", false);
    var s := new TodoSession.Mount(Some([a, b]));
    assert s.todos == [a, b];

    assert Delete([a, b], 10) == [b] by {
      assert [a, b][1..] == [b];
      assert Delete([b], 10) == [b] + Delete([], 10);
    }
    s.Click(DeleteButton(10, 0), 12);
    assert s.todos == [b] && s.focus == Some(Row(0));

    assert Delete([b], 11) == [] by {
      assert [b][1..] == [];
    }
    var prevented := s.HandleItemKeyDown("Delete", 11, 0);
    assert prevented && s.todos == [] && s.focus == Some(Input);
    assert s.stored == Some([]);
  }
}

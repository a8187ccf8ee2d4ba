/**
 * Sequences of user events, each driving the handlers of one TodoApp, with
 * what the user then sees as their contract. EditItem and EditThenCancel hold
 * from any state, including edit-mode states in which the dialog hides the list.
 */
module Interactions {

  import opened Wrappers
  import opened TodoList
  import opened App

  /** Type into the add field and press Add twice, then delete the first item: only the second is left. */
  method AddAddRemove(idA: string, idB: string) returns (shown: seq<Todo>)
    requires idA != idB
    ensures shown == [Todo(idB, "B")]
  {
    var app := new TodoApp();
    app.SetTodo("A");
    assert !IsWhitespace("A"[0]);
    app.PressMain(idA);
    app.SetTodo("B");
    assert !IsWhitespace("B"[0]);
    app.PressMain(idB);
    app.RemoveTodo(idA);
    assert app.todos == Without([Todo(idA, "A")] + [Todo(idB, "B")], idA);
    shown := app.todos;
  }

  /** Pressing Add with a blank draft adds nothing and keeps the draft on screen. */
  method AddBlank(text: string, freshId: string) returns (shown: seq<Todo>, field: string)
    requires IsBlank(text)
    ensures shown == [] && field == text
  {
    var app := new TodoApp();
    app.SetTodo(text);
    app.PressMain(freshId);
    shown, field := app.todos, app.draft;
  }

  /**
   * Add one item, tap it, retype its text and press Update: the item keeps its
   * id and carries the new text, even a blank one, and the dialog closes.
   */
  method AddEditCommit(id: string, text: string, typed: string, unusedId: string)
    returns (shown: seq<Todo>, editing: bool, field: string)
    requires !IsBlank(text)
    ensures shown == [Todo(id, typed)] && !editing && field == ""
  {
    var app := new TodoApp();
    app.SetTodo(text);
    app.PressMain(id);
    app.StartEditing(app.todos[0].id, app.todos[0].text);
    app.SetTodo(typed);
    app.PressMain(unusedId);
    shown, editing, field := app.todos, app.isEditing, app.draft;
  }

  /**
   * Add one item, tap it, retype, then Cancel and press the main button: the
   * item is untouched and the retyped text is added as a second item.
   */
  method AddEditCancelAdd(idA: string, text: string, typed: string, idB: string)
    returns (shown: seq<Todo>, target: Option<string>)
    requires !IsBlank(text) && !IsBlank(typed)
    ensures shown == [Todo(idA, text), Todo(idB, typed)]
    ensures target == Some(idA)
  {
    var app := new TodoApp();
    app.SetTodo(text);
    app.PressMain(idA);
    app.StartEditing(app.todos[0].id, app.todos[0].text);
    app.SetTodo(typed);
    app.Cancel();
    app.PressMain(idB);
    shown, target := app.todos, app.currentTodoId;
  }

  /**
   * On any valid state: tap the item at `k`, retype, press Update. Exactly that
   * item's text changes and the state is back in add mode.
   */
  method EditItem(app: TodoApp, k: nat, typed: string)
    requires app.Valid() && k < |app.todos|
    modifies app
    ensures app.todos == old(app.todos)[k := old(app.todos)[k].(text := typed)]
    ensures app.draft == "" && !app.isEditing && app.currentTodoId == None
    ensures app.Valid()
  {
    app.StartEditing(app.todos[k].id, app.todos[k].text);
    app.SetTodo(typed);
    RetitledUniqueTarget(app.todos, k, typed);
    app.PressMain("");
  }

  /**
   * On any state: tap the item at `k`, type any number of edits, then Cancel.
   * The list is untouched; the last edit stays in the draft and the target stays set.
   */
  method EditThenCancel(app: TodoApp, k: nat, edits: seq<string>)
    requires k < |app.todos|
    modifies app
    ensures app.todos == old(app.todos) && !app.isEditing
    ensures app.draft == if edits == [] then old(app.todos)[k].text else edits[|edits| - 1]
    ensures app.currentTodoId == Some(old(app.todos)[k].id)
  {
    app.StartEditing(app.todos[k].id, app.todos[k].text);
    var i := 0;
    while i < |edits|
      invariant 0 <= i <= |edits|
      invariant app.todos == old(app.todos) && app.isEditing
      invariant app.draft == if i == 0 then old(app.todos)[k].text else edits[i - 1]
      invariant app.currentTodoId == Some(old(app.todos)[k].id)
    {
      app.SetTodo(edits[i]);
      i := i + 1;
    }
    app.Cancel();
  }
}

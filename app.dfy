/**
 * The `App` component's state machine: its four state cells as the fields of
 * one object, and each event handler as one atomic method on it. The list
 * expressions the handlers build come from TodoList.
 */
module App {

  import opened Wrappers
  import opened TodoList

  class TodoApp {
    /** The draft text shared by the add field and the edit dialog (`todo`). */
    var draft: string
    /** The items in display order (`todos`). */
    var todos: seq<Todo>
    /** Whether the edit dialog is open, and so whether the main button updates. */
    var isEditing: bool
    /** The id of the item being edited; `None` stands for `null`. */
    var currentTodoId: Option<string>

    /** The invariant the id-keyed list relies on; the handlers keep it given fresh ids. */
    ghost predicate Valid()
      reads this
    {
      UniqueIds(todos)
    }

    /** The state on mount: empty draft, empty list, add mode, no edit target. */
    constructor ()
      ensures draft == "" && todos == [] && !isEditing && currentTodoId == None
      ensures Valid()
    {
      draft := "";
      todos := [];
      isEditing := false;
      currentTodoId := None;
    }

    /**
     * Add: a blank draft changes nothing; otherwise the draft, untrimmed, is
     * appended under `freshId` and the draft is cleared.
     */
    method AddTodo(freshId: string)
      modifies this
      ensures IsBlank(old(draft)) ==> todos == old(todos) && draft == old(draft)
      ensures !IsBlank(old(draft)) ==> todos == old(todos) + [Todo(freshId, old(draft))] && draft == ""
      ensures isEditing == old(isEditing) && currentTodoId == old(currentTodoId)
      ensures old(Valid()) && !HasId(old(todos), freshId) ==> Valid()
    {
      if Trim(draft) != "" {
        AppendUniqueIff(todos, Todo(freshId, draft));
        todos := todos + [Todo(freshId, draft)];
        draft := "";
      }
    }

    /** Delete: every item with this id goes; the rest of the state is untouched. */
    method RemoveTodo(id: string)
      modifies this
      ensures todos == Without(old(todos), id)
      ensures draft == old(draft) && isEditing == old(isEditing) && currentTodoId == old(currentTodoId)
      ensures old(Valid()) ==> Valid()
    {
      if Valid() {
        WithoutKeepsUnique(todos, id);
      }
      todos := Without(todos, id);
    }

    /** Tapping an item: target it, load its text into the draft, open the dialog. */
    method StartEditing(id: string, text: string)
      modifies this
      ensures currentTodoId == Some(id) && draft == text && isEditing
      ensures todos == old(todos)
    {
      currentTodoId := Some(id);
      draft := text;
      isEditing := true;
    }

    /**
     * Update: every item whose id is the target gets the draft as its text,
     * blank or not; then the draft, the mode and the target are reset.
     */
    method UpdateTodo()
      modifies this
      ensures todos == Retitled(old(todos), old(currentTodoId), old(draft))
      ensures draft == "" && !isEditing && currentTodoId == None
      ensures old(Valid()) ==> Valid()
    {
      if Valid() {
        RetitledKeepsUnique(todos, currentTodoId, draft);
      }
      todos := Retitled(todos, currentTodoId, draft);
      draft := "";
      isEditing := false;
      currentTodoId := None;
    }

    /** A text-change event from either text field: only the draft changes. */
    method SetTodo(text: string)
      modifies this
      ensures draft == text
      ensures todos == old(todos) && isEditing == old(isEditing) && currentTodoId == old(currentTodoId)
    {
      draft := text;
    }

    /** Cancel in the edit dialog: only the mode changes; draft and target stay. */
    method Cancel()
      modifies this
      ensures !isEditing
      ensures todos == old(todos) && draft == old(draft) && currentTodoId == old(currentTodoId)
    {
      isEditing := false;
    }

    /** The main button: Update while editing, Add otherwise (`freshId` is used only by Add). */
    method PressMain(freshId: string)
      modifies this
      ensures old(isEditing) ==>
        todos == Retitled(old(todos), old(currentTodoId), old(draft)) &&
        draft == "" && !isEditing && currentTodoId == None
      ensures !old(isEditing) && IsBlank(old(draft)) ==>
        todos == old(todos) && draft == old(draft) && !isEditing && currentTodoId == old(currentTodoId)
      ensures !old(isEditing) && !IsBlank(old(draft)) ==>
        todos == old(todos) + [Todo(freshId, old(draft))] && draft == "" &&
        !isEditing && currentTodoId == old(currentTodoId)
      ensures old(Valid()) && (old(isEditing) || !HasId(old(todos), freshId)) ==> Valid()
    {
      if isEditing {
        UpdateTodo();
      } else {
        AddTodo(freshId);
      }
    }
  }
}

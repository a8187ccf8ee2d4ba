/**
 * The value-level part of the todo app: the todo item record, the whitespace
 * test behind `String.prototype.trim`, and the two list expressions the
 * handlers build their new lists with (`filter` on delete, `map` on update).
 */
module TodoList {

  import opened Wrappers

  /** One todo item: the id it was created with and its current text. */
  datatype Todo = Todo(id: string, text: string)

  // ---------------------------------------------------------------------------
  // Whitespace and trim
  // ---------------------------------------------------------------------------

  /** The characters `trim` strips: ECMAScript WhiteSpace and LineTerminator. */
  predicate IsWhitespace(c: char)
  {
    c == '\t' || c == '\n' || c == '\U{000B}' || c == '\U{000C}' || c == '\r' || c == ' '
    || c == '\U{00A0}' || c == '\U{1680}' || ('\U{2000}' <= c <= '\U{200A}')
    || c == '\U{2028}' || c == '\U{2029}' || c == '\U{202F}' || c == '\U{205F}'
    || c == '\U{3000}' || c == '\U{FEFF}'
  }

  /** A draft with nothing but whitespace in it (the empty draft included). */
  ghost predicate IsBlank(s: string)
  {
    forall i :: 0 <= i < |s| ==> IsWhitespace(s[i])
  }

  /** `s` with its leading whitespace removed: the longest suffix not starting with whitespace. */
  function TrimStart(s: string): (r: string)
    ensures |r| <= |s| && r == s[|s| - |r|..]
    ensures forall i :: 0 <= i < |s| - |r| ==> IsWhitespace(s[i])
    ensures r != [] ==> !IsWhitespace(r[0])
  {
    if s != [] && IsWhitespace(s[0]) then TrimStart(s[1..]) else s
  }

  /** `s` with its trailing whitespace removed: the longest prefix not ending with whitespace. */
  function TrimEnd(s: string): (r: string)
    ensures |r| <= |s| && r == s[..|r|]
    ensures forall i :: |r| <= i < |s| ==> IsWhitespace(s[i])
    ensures r != [] ==> !IsWhitespace(r[|r| - 1])
  {
    if s != [] && IsWhitespace(s[|s| - 1]) then TrimEnd(s[..|s| - 1]) else s
  }

  /**
   * `s.trim()`: the middle of `s` left after stripping whitespace at both ends.
   * It is empty exactly when `s` is blank, which is what makes it a usable
   * truthiness guard.
   */
  function Trim(s: string): (r: string)
    ensures exists k :: 0 <= k <= |s| && r <= s[k..]
    ensures r != [] ==> !IsWhitespace(r[0]) && !IsWhitespace(r[|r| - 1])
    ensures r == [] <==> IsBlank(s)
  {
    var t := TrimStart(s);
    var r := TrimEnd(t);
    assert r <= s[|s| - |t|..];
    assert r == [] ==> forall i :: 0 <= i < |s| ==> IsWhitespace(s[i]) by {
      if r == [] {
        forall i | 0 <= i < |s| ensures IsWhitespace(s[i]) {
          if i >= |s| - |t| { assert s[i] == t[i - (|s| - |t|)]; }
        }
      }
    }
    r
  }

  // ---------------------------------------------------------------------------
  // Ids
  // ---------------------------------------------------------------------------

  /** Some item of the list carries `id`. */
  ghost predicate HasId(todos: seq<Todo>, id: string)
  {
    exists i :: 0 <= i < |todos| && todos[i].id == id
  }

  /** No two items of the list share an id (the list is keyed by id when rendered). */
  ghost predicate UniqueIds(todos: seq<Todo>)
  {
    forall i, j :: 0 <= i < j < |todos| ==> todos[i].id != todos[j].id
  }

  /** Appending an item keeps the ids unique exactly when its id is new to the list. */
  lemma AppendUniqueIff(todos: seq<Todo>, item: Todo)
    ensures UniqueIds(todos + [item]) <==> UniqueIds(todos) && !HasId(todos, item.id)
  {
    var r := todos + [item];
    assert forall i :: 0 <= i < |todos| ==> r[i] == todos[i];
    assert r[|todos|] == item;
  }

  // ---------------------------------------------------------------------------
  // Delete: `todos.filter(todo => todo.id !== id)`
  // ---------------------------------------------------------------------------

  /**
   * The list without the items whose id is `id`. Every other item keeps its
   * multiplicity; the order is that of the input (see WithoutConcat and
   * WithoutIsSubsequence).
   */
  function Without(todos: seq<Todo>, id: string): (r: seq<Todo>)
    ensures |r| <= |todos|
    ensures forall i :: 0 <= i < |r| ==> r[i].id != id
  {
    if todos == [] then []
    else
      if todos[0].id == id then Without(todos[1..], id)
      else [todos[0]] + Without(todos[1..], id)
  }

  /** Filtering a concatenation filters each part in place: the relative order is kept. */
  lemma {:induction false} WithoutConcat(a: seq<Todo>, b: seq<Todo>, id: string)
    ensures Without(a + b, id) == Without(a, id) + Without(b, id)
  {
    if a == [] {
      assert a + b == b;
    } else {
      var ab := a + b;
      assert ab != [] && ab[0] == a[0] && ab[1..] == a[1..] + b;
      WithoutConcat(a[1..], b, id);
      if a[0].id == id {
        assert Without(ab, id) == Without(a[1..] + b, id);
      } else {
        assert Without(ab, id) == [a[0]] + Without(a[1..] + b, id);
      }
    }
  }

  /** `r` is obtained from `s` by deleting some elements, keeping the order of the rest. */
  ghost predicate IsSubsequence(r: seq<Todo>, s: seq<Todo>)
    decreases |s|
  {
    if s == [] then r == []
    else (r != [] && r[0] == s[0] && IsSubsequence(r[1..], s[1..])) || IsSubsequence(r, s[1..])
  }

  /** The items left after a delete are in their original relative order. */
  lemma {:induction false} WithoutIsSubsequence(todos: seq<Todo>, id: string)
    ensures IsSubsequence(Without(todos, id), todos)
  {
    if todos != [] {
      WithoutIsSubsequence(todos[1..], id);
    }
  }

  /** A delete keeps every other item as many times as it occurred, and none of the deleted id. */
  lemma {:induction false} WithoutCounts(todos: seq<Todo>, id: string, t: Todo)
    ensures multiset(Without(todos, id))[t] == if t.id == id then 0 else multiset(todos)[t]
  {
    if todos != [] {
      WithoutCounts(todos[1..], id, t);
      assert todos == [todos[0]] + todos[1..];
    }
  }

  /** Every item left after a delete was in the list and does not carry the deleted id. */
  lemma WithoutMember(todos: seq<Todo>, id: string, t: Todo)
    ensures t in Without(todos, id) <==> t in todos && t.id != id
  {
  }

  /** Deleting an id that is absent leaves the list exactly as it was. */
  lemma {:induction false} WithoutAbsent(todos: seq<Todo>, id: string)
    requires !HasId(todos, id)
    ensures Without(todos, id) == todos
  {
    if todos != [] {
      WithoutAbsent(todos[1..], id);
    }
  }

  /** Deleting an id that is present makes the list strictly shorter. */
  lemma {:induction false} WithoutPresent(todos: seq<Todo>, id: string)
    requires HasId(todos, id)
    ensures |Without(todos, id)| < |todos|
  {
    if todos[0].id != id {
      var i :| 0 <= i < |todos| && todos[i].id == id;
      assert todos[1..][i - 1].id == id;
      WithoutPresent(todos[1..], id);
    }
  }

  /** With unique ids, deleting a present id removes exactly one item. */
  lemma {:induction false} WithoutUniquePresent(todos: seq<Todo>, id: string)
    requires UniqueIds(todos) && HasId(todos, id)
    ensures |Without(todos, id)| == |todos| - 1
  {
    assert todos != [];
    if todos[0].id == id {
      WithoutAbsent(todos[1..], id);
    } else {
      var i :| 0 <= i < |todos| && todos[i].id == id;
      assert todos[1..][i - 1].id == id;
      WithoutUniquePresent(todos[1..], id);
    }
  }

  /** The ids left after a delete were ids of the input, and the deleted id is not among them. */
  lemma WithoutIds(todos: seq<Todo>, id: string, x: string)
    requires HasId(Without(todos, id), x)
    ensures HasId(todos, x) && x != id
  {
    var r := Without(todos, id);
    var j :| 0 <= j < |r| && r[j].id == x;
    WithoutMember(todos, id, r[j]);
    var i :| 0 <= i < |todos| && todos[i] == r[j];
  }

  /** A delete never introduces a duplicate id. */
  lemma {:induction false} WithoutKeepsUnique(todos: seq<Todo>, id: string)
    requires UniqueIds(todos)
    ensures UniqueIds(Without(todos, id))
  {
    if todos != [] {
      var tail := todos[1..];
      WithoutKeepsUnique(tail, id);
      if todos[0].id != id {
        var rest := Without(tail, id);
        assert !HasId(rest, todos[0].id) by {
          if HasId(rest, todos[0].id) {
            WithoutIds(tail, id, todos[0].id);
          }
        }
        AppendFrontUnique(todos[0], rest);
      }
    }
  }

  /** Putting an item with a new id in front of a list with unique ids keeps them unique. */
  lemma AppendFrontUnique(item: Todo, todos: seq<Todo>)
    requires UniqueIds(todos) && !HasId(todos, item.id)
    ensures UniqueIds([item] + todos)
  {
  }

  /** Deleting the same id twice is the same as deleting it once. */
  lemma {:induction false} WithoutIdempotent(todos: seq<Todo>, id: string)
    ensures Without(Without(todos, id), id) == Without(todos, id)
  {
    var r := Without(todos, id);
    assert !HasId(r, id) by {
      if HasId(r, id) { WithoutIds(todos, id, id); }
    }
    WithoutAbsent(r, id);
  }

  // ---------------------------------------------------------------------------
  // Update: `todos.map(item => item.id === currentTodoId ? {...item, text: todo} : item)`
  // ---------------------------------------------------------------------------

  /**
   * The list with the text of every item whose id equals `target` replaced by
   * `text`. The length, every id and the order of the ids are kept; items whose
   * id is not the target stay equal.
   */
  function Retitled(todos: seq<Todo>, target: Option<string>, text: string): (r: seq<Todo>)
    ensures |r| == |todos|
    ensures forall i :: 0 <= i < |todos| ==>
      r[i].id == todos[i].id &&
      (target == Some(todos[i].id) ==> r[i].text == text) &&
      (target != Some(todos[i].id) ==> r[i] == todos[i])
  {
    if todos == [] then []
    else
      var item := if target == Some(todos[0].id) then todos[0].(text := text) else todos[0];
      var rest := Retitled(todos[1..], target, text);
      assert forall i :: 1 <= i < |todos| ==> ([item] + rest)[i] == rest[i - 1] && todos[i] == todos[1..][i - 1];
      [item] + rest
  }

  /** An update whose target is absent from the list (`null` included) leaves the list as it was. */
  lemma RetitledAbsent(todos: seq<Todo>, target: Option<string>, text: string)
    requires target == None || !HasId(todos, target.value)
    ensures Retitled(todos, target, text) == todos
  {
  }

  /** With unique ids, an update that targets the item at `k` changes that one item's text only. */
  lemma RetitledUniqueTarget(todos: seq<Todo>, k: nat, text: string)
    requires UniqueIds(todos) && k < |todos|
    ensures Retitled(todos, Some(todos[k].id), text) == todos[k := todos[k].(text := text)]
  {
  }

  /** An update never changes which ids the list holds, so uniqueness is kept. */
  lemma RetitledKeepsUnique(todos: seq<Todo>, target: Option<string>, text: string)
    requires UniqueIds(todos)
    ensures UniqueIds(Retitled(todos, target, text))
  {
  }
}

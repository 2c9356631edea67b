/**
 * The page and the server together: what the server's table looks like after
 * it handles the requests the page builds, and a toggle played end to end.
 */
module Sync {
  import opened Records
  import TodoTable
  import Requests
  import Backend
  import Page

  /** A toggle request built from the first stored todo with its id flips that todo's completion and touches nothing else. */
  lemma ToggleAtServer(s: seq<Todo>, i: nat)
    requires i < |s| && TodoTable.FirstIndex(s, s[i].id) == Some(i)
    ensures TodoTable.AfterUpdate(s, s[i].id, Requests.Toggled(s[i])) == Some(s[i := s[i].(completed := !s[i].completed)])
  {
  }

  /** Saving a draft opened on the first stored todo with its id stores the draft's title and assignee under the same id. */
  lemma SaveDraftAtServer(s: seq<Todo>, i: nat, title: string, user: Option<string>)
    requires i < |s| && TodoTable.FirstIndex(s, s[i].id) == Some(i)
    ensures var draft := s[i].(title := title, userId := user);
      TodoTable.AfterUpdate(s, draft.id, draft) == Some(s[i := draft])
  {
  }

  /**
   * Two checkbox clicks on the first stored todo with its id, the second built from the list
   * re-fetched after the first, leave the server's table as it was.
   */
  lemma ToggleTwiceRestores(s: seq<Todo>, i: nat)
    requires i < |s| && TodoTable.FirstIndex(s, s[i].id) == Some(i)
    ensures var once := TodoTable.AfterUpdate(s, s[i].id, Requests.Toggled(s[i])).value;
      TodoTable.AfterUpdate(once, s[i].id, Requests.Toggled(once[i])) == Some(s)
  {
    var once := TodoTable.AfterUpdate(s, s[i].id, Requests.Toggled(s[i])).value;
    TodoTable.FirstIndexByIds(s, once, s[i].id);
    assert once[i := TodoTable.Overwrite(once[i], Requests.Toggled(once[i]))] == s;
  }

  /**
   * A non-blank create request, stored under a fresh generated id, is the
   * last entry; a lookup of that id finds it, with the title as typed and
   * not completed.
   */
  lemma AddAtServer(s: seq<Todo>, title: string, user: string, newId: string)
    requires !Requests.AllWhitespace(title) && !TodoTable.Has(s, newId)
    ensures var stored := s + [Requests.AddTodoRequest(title, user).value.(id := newId)];
      TodoTable.FirstIndex(stored, newId) == Some(|s|) &&
      stored[|s|].title == title && !stored[|s|].completed
  {
    var stored := s + [Requests.AddTodoRequest(title, user).value.(id := newId)];
    assert stored[|s|].id == newId;
    var i := TodoTable.FirstIndex(stored, newId).value;
    assert forall k :: 0 <= k < |s| ==> stored[k] == s[k];
  }

  /**
   * A checkbox click played end to end: the page sends the toggle, the server
   * handles it, the page re-fetches. Afterwards the page shows exactly the
   * server's table, and when the server had an entry with the todo's id, the
   * first such entry takes the clicked todo's title and user and the opposite
   * of the clicked todo's completion.
   */
  method ToggleRoundTrip(store: Backend.TodoStore, view: Page.TodoPage, todo: Todo) returns (response: Backend.Response<Todo>)
    requires view.Valid() && view.todos == store.todos
    modifies store`todos, view`todos, view`editingTodo
    ensures view.Valid() && view.todos == store.todos
    ensures response.NotFound? <==> !TodoTable.Has(old(store.todos), todo.id)
    ensures response.NotFound? ==> store.todos == old(store.todos) && view.editingTodo == old(view.editingTodo)
    ensures response.Ok? ==> view.editingTodo == None
    ensures response.Ok? ==>
      var i := TodoTable.FirstIndex(old(store.todos), todo.id).value;
      store.todos == old(store.todos)[i := old(store.todos)[i].(title := todo.title, completed := !todo.completed, userId := todo.userId)]
  {
    var request := Requests.Toggled(todo);
    response := store.UpdateTodo(todo.id, request);
    var _ := view.ToggleTodoCompletion(todo, response.Ok?, store.todos);
  }
}

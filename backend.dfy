/**
 * The FastAPI service's in-memory storage and its request handlers. The
 * module-level `todos` list is the field `todos` of one `TodoStore`; the
 * fixed `users` list is a constant field, so no handler can change it.
 * A generated uuid arrives as the parameter `newId`; a raised 404 is the
 * answer `NotFound`.
 */
module Backend {
  import opened Records
  import TodoTable

  /** A handler's answer: the response body, or HTTP 404 "Todo not found". */
  datatype Response<T> = Ok(value: T) | NotFound

  /** The message body of a successful delete. */
  const DeletedMessage: string := "Todo deleted successfully"

  /** The three users the service starts with. */
  function SeedUsers(): (r: seq<User>)
    ensures |r| == 3
    ensures forall i, j :: 0 <= i < j < |r| ==> r[i].id != r[j].id
  {
    [User("1", "Alice"), User("2", "Bob"), User("3", "Charlie")]
  }

  class TodoStore {
    var todos: seq<Todo>
    const users: seq<User>

    constructor ()
      ensures todos == [] && users == SeedUsers()
    {
      todos := [];
      users := SeedUsers();
    }

    /** `GET /todos`: the stored list, unchanged. */
    method GetTodos() returns (r: seq<Todo>)
      ensures r == todos
    {
      r := todos;
    }

    /** `GET /users`: the fixed user list. */
    method GetUsers() returns (r: seq<User>)
      ensures r == users
    {
      r := users;
    }

    /**
     * `POST /todos`: the client's id is replaced by the generated one and the
     * todo is appended; earlier entries keep their places.
     */
    method CreateTodo(todo: Todo, newId: string) returns (r: Todo)
      modifies this`todos
      ensures r.id == newId && r.title == todo.title && r.completed == todo.completed && r.userId == todo.userId
      ensures todos == old(todos) + [r]
    {
      r := todo.(id := newId);
      todos := todos + [r];
    }

    /**
     * `PUT /todos/{todoId}`: scans for the first todo with the id and
     * overwrites its title, completion and assignee; 404 when there is none.
     */
    method UpdateTodo(todoId: string, updated: Todo) returns (r: Response<Todo>)
      modifies this`todos
      ensures r.NotFound? <==> !TodoTable.Has(old(todos), todoId)
      ensures r.NotFound? ==> todos == old(todos)
      ensures r.Ok? ==> Some(todos) == TodoTable.AfterUpdate(old(todos), todoId, updated)
      ensures r.Ok? ==> r.value == todos[TodoTable.FirstIndex(old(todos), todoId).value]
    {
      var i := 0;
      while i < |todos|
        invariant 0 <= i <= |todos|
        invariant todos == old(todos)
        invariant forall k :: 0 <= k < i ==> todos[k].id != todoId
      {
        if todos[i].id == todoId {
          var t := TodoTable.Overwrite(todos[i], updated);
          todos := todos[i := t];
          r := Ok(t);
          return;
        }
        i := i + 1;
      }
      r := NotFound;
    }

    /**
     * `DELETE /todos/{todoId}`: scans for the first todo with the id and
     * removes it; 404 when there is none.
     */
    method DeleteTodo(todoId: string) returns (r: Response<string>)
      modifies this`todos
      ensures r.NotFound? <==> !TodoTable.Has(old(todos), todoId)
      ensures r.NotFound? ==> todos == old(todos)
      ensures r.Ok? ==> r.value == DeletedMessage && Some(todos) == TodoTable.AfterDelete(old(todos), todoId)
    {
      var index := 0;
      while index < |todos|
        invariant 0 <= index <= |todos|
        invariant todos == old(todos)
        invariant forall k :: 0 <= k < index ==> todos[k].id != todoId
      {
        if todos[index].id == todoId {
          todos := todos[..index] + todos[index + 1..];
          r := Ok(DeletedMessage);
          return;
        }
        index := index + 1;
      }
      r := NotFound;
    }
  }
}

/**
 * The `Home` page component's state and handlers. Each `useState` hook is a
 * field; each handler is a method. A network call's outcome is the parameter
 * `ok`, and the re-fetch after a successful call is the parameter `server`,
 * the list `GET /todos` answers with, which becomes `todos`. Handlers that
 * send a request return the body they send.
 */
module Page {
  import opened Records
  import ListView
  import Requests

  class TodoPage {
    var todos: seq<Todo>
    var users: seq<User>
    var newTodoTitle: string
    var selectedUser: string
    var filter: string
    var currentPage: int
    var editingTodo: Option<Todo>

    /** The page never goes below 0: Previous leads to at least 1, Next to at least 0. */
    ghost predicate Valid()
      reads this
    {
      currentPage >= 0
    }

    constructor ()
      ensures Valid()
      ensures todos == [] && users == [] && newTodoTitle == "" && selectedUser == ""
      ensures filter == "all" && currentPage == 1 && editingTodo == None
    {
      todos, users := [], [];
      newTodoTitle, selectedUser := "", "";
      filter, currentPage, editingTodo := "all", 1, None;
    }

    /** `filteredTodos`: the todos the current filter keeps. */
    function FilteredTodos(): (r: seq<Todo>)
      reads this
      ensures |r| <= |todos|
      ensures forall k :: 0 <= k < |r| ==> ListView.Keeps(filter, r[k])
    {
      ListView.Filtered(todos, filter)
    }

    /** `totalPages`: enough 5-item pages for the filtered todos, 0 when none pass. */
    function TotalPages(): (r: nat)
      reads this
      ensures |FilteredTodos()| <= r * ListView.ItemsPerPage
      ensures r == 0 || (r - 1) * ListView.ItemsPerPage < |FilteredTodos()|
      ensures r == 0 <==> FilteredTodos() == []
    {
      ListView.TotalPages(|FilteredTodos()|)
    }

    /** `paginatedTodos`: the rows the table shows for the current page. */
    function PaginatedTodos(): (r: seq<Todo>)
      reads this
      ensures |r| <= ListView.ItemsPerPage
      ensures 1 <= currentPage ==> r == FilteredTodos()[ListView.Min((currentPage - 1) * ListView.ItemsPerPage, |FilteredTodos()|)..ListView.Min(currentPage * ListView.ItemsPerPage, |FilteredTodos()|)]
      ensures currentPage == 0 ==> r == []
      ensures currentPage > TotalPages() ==> r == []
      ensures 1 <= currentPage <= TotalPages() ==> r != []
    {
      ListView.PageSlice(FilteredTodos(), currentPage)
    }

    /** `fetchTodos`: the list the server answered with replaces `todos`. */
    method FetchTodos(server: seq<Todo>)
      requires Valid()
      modifies this`todos
      ensures Valid() && todos == server
    {
      todos := server;
    }

    /** `fetchUsers`: the list the server answered with replaces `users`. */
    method FetchUsers(server: seq<User>)
      requires Valid()
      modifies this`users
      ensures Valid() && users == server
    {
      users := server;
    }

    /** The mount effect: fetch the todos, then the users. */
    method Mount(serverTodos: seq<Todo>, serverUsers: seq<User>)
      requires Valid()
      modifies this`todos, this`users
      ensures Valid() && todos == serverTodos && users == serverUsers
    {
      FetchTodos(serverTodos);
      FetchUsers(serverUsers);
    }

    /** Typing in the title input. */
    method SetNewTodoTitle(value: string)
      requires Valid()
      modifies this`newTodoTitle
      ensures Valid() && newTodoTitle == value
    {
      newTodoTitle := value;
    }

    /** Choosing a user in the create form. */
    method SetSelectedUser(value: string)
      requires Valid()
      modifies this`selectedUser
      ensures Valid() && selectedUser == value
    {
      selectedUser := value;
    }

    /** Choosing a filter; the current page is left as it is. */
    method SetFilter(value: string)
      requires Valid()
      modifies this`filter
      ensures Valid() && filter == value
      ensures currentPage == old(currentPage)
    {
      filter := value;
    }

    /**
     * `addTodo`: a blank title sends nothing and changes nothing. Otherwise
     * the create body is sent; on success the list is re-fetched and both
     * form fields are cleared, on failure nothing changes.
     */
    method AddTodo(ok: bool, server: seq<Todo>) returns (request: Option<Todo>)
      requires Valid()
      modifies this`todos, this`newTodoTitle, this`selectedUser
      ensures Valid()
      ensures request == Requests.AddTodoRequest(old(newTodoTitle), old(selectedUser))
      ensures request.None? <==> Requests.AllWhitespace(old(newTodoTitle))
      ensures request.Some? && ok ==> todos == server && newTodoTitle == "" && selectedUser == ""
      ensures request.None? || !ok ==>
        todos == old(todos) && newTodoTitle == old(newTodoTitle) && selectedUser == old(selectedUser)
    {
      request := Requests.AddTodoRequest(newTodoTitle, selectedUser);
      if request.None? {
        return;
      }
      if ok {
        FetchTodos(server);
        newTodoTitle := "";
        selectedUser := "";
      }
    }

    /**
     * `updateTodo`: sends the todo as given; on success the list is
     * re-fetched and the edit draft is closed, on failure nothing changes.
     */
    method UpdateTodo(todo: Todo, ok: bool, server: seq<Todo>) returns (request: Todo)
      requires Valid()
      modifies this`todos, this`editingTodo
      ensures Valid() && request == todo
      ensures ok ==> todos == server && editingTodo == None
      ensures !ok ==> todos == old(todos) && editingTodo == old(editingTodo)
    {
      request := todo;
      if ok {
        FetchTodos(server);
        editingTodo := None;
      }
    }

    /** `deleteTodo`: sends the id; on success the list is re-fetched, on failure nothing changes. */
    method DeleteTodo(id: string, ok: bool, server: seq<Todo>) returns (request: string)
      requires Valid()
      modifies this`todos
      ensures Valid() && request == id
      ensures todos == if ok then server else old(todos)
    {
      request := id;
      if ok {
        FetchTodos(server);
      }
    }

    /**
     * `toggleTodoCompletion`: an update whose body is the todo with its
     * completion flipped; a successful toggle also closes any open edit draft.
     */
    method ToggleTodoCompletion(todo: Todo, ok: bool, server: seq<Todo>) returns (request: Todo)
      requires Valid()
      modifies this`todos, this`editingTodo
      ensures Valid() && request == Requests.Toggled(todo)
      ensures ok ==> todos == server && editingTodo == None
      ensures !ok ==> todos == old(todos) && editingTodo == old(editingTodo)
    {
      request := UpdateTodo(Requests.Toggled(todo), ok, server);
    }

    /** The Edit button: the draft becomes the row's todo. */
    method BeginEdit(todo: Todo)
      requires Valid()
      modifies this`editingTodo
      ensures Valid() && editingTodo == Some(todo)
    {
      editingTodo := Some(todo);
    }

    /** The Cancel button: the draft is dropped and nothing is sent. */
    method CancelEdit()
      requires Valid()
      modifies this`editingTodo
      ensures Valid() && editingTodo == None
    {
      editingTodo := None;
    }

    /** Typing in the draft's title input (shown only while a draft is open). */
    method EditDraftTitle(value: string)
      requires Valid() && editingTodo.Some?
      modifies this`editingTodo
      ensures Valid() && editingTodo.Some?
      ensures editingTodo.value == old(editingTodo.value).(title := value)
    {
      editingTodo := Some(editingTodo.value.(title := value));
    }

    /** Choosing a user in the draft's select (shown only while a draft is open). */
    method EditDraftUser(value: string)
      requires Valid() && editingTodo.Some?
      modifies this`editingTodo
      ensures Valid() && editingTodo.Some?
      ensures editingTodo.value == old(editingTodo.value).(userId := Some(value))
    {
      editingTodo := Some(editingTodo.value.(userId := Some(value)));
    }

    /** The Save button: `updateTodo(editingTodo)` (shown only while a draft is open). */
    method SaveEdit(ok: bool, server: seq<Todo>) returns (request: Todo)
      requires Valid() && editingTodo.Some?
      modifies this`todos, this`editingTodo
      ensures Valid() && request == old(editingTodo.value)
      ensures ok ==> todos == server && editingTodo == None
      ensures !ok ==> todos == old(todos) && editingTodo == old(editingTodo)
    {
      request := UpdateTodo(editingTodo.value, ok, server);
    }

    /** The Previous button: disabled on page 1, otherwise `max(1, page - 1)`. */
    method PreviousPage()
      requires Valid()
      modifies this`currentPage
      ensures Valid()
      ensures currentPage ==
        if ListView.PrevEnabled(old(currentPage)) then ListView.PrevPage(old(currentPage)) else old(currentPage)
    {
      if ListView.PrevEnabled(currentPage) {
        ListView.NavigationNonNegative(currentPage, TotalPages());
        currentPage := ListView.PrevPage(currentPage);
      }
    }

    /**
     * The Next button: disabled when the page equals the page count, otherwise
     * `min(totalPages, page + 1)`; with no todos to show this takes page 1 to 0.
     */
    method NextPage()
      requires Valid()
      modifies this`currentPage
      ensures Valid()
      ensures currentPage ==
        if ListView.NextEnabled(old(currentPage), TotalPages()) then ListView.NextPage(old(currentPage), TotalPages())
        else old(currentPage)
    {
      if ListView.NextEnabled(currentPage, TotalPages()) {
        ListView.NavigationNonNegative(currentPage, TotalPages());
        currentPage := ListView.NextPage(currentPage, TotalPages());
      }
    }
  }

  /**
   * In every state the page can reach, the table shows at most five rows:
   * on pages 1 to the page count the non-empty run of filtered todos from
   * position (currentPage - 1) * 5, and on page 0 or past the last page none;
   * so rows are shown exactly on pages 1 to the page count.
   */
  lemma ShownRows(p: TodoPage)
    requires p.Valid()
    ensures |p.PaginatedTodos()| <= ListView.ItemsPerPage
    ensures 1 <= p.currentPage <= p.TotalPages() ==>
      p.PaginatedTodos() != [] &&
      p.PaginatedTodos() == p.FilteredTodos()[(p.currentPage - 1) * ListView.ItemsPerPage..ListView.Min(p.currentPage * ListView.ItemsPerPage, |p.FilteredTodos()|)]
    ensures p.currentPage == 0 || p.currentPage > p.TotalPages() ==> p.PaginatedTodos() == []
    ensures p.PaginatedTodos() != [] <==> 1 <= p.currentPage <= p.TotalPages()
  {
  }
}

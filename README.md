# Todo app: server table and list page, modelled in Dafny

The system is a todo list shared between a small FastAPI service and a
Next.js page. The service keeps the todos in an in-memory list. It creates
a todo under a freshly generated id. It updates or deletes the first todo
whose id matches, and answers 404 when there is none. It serves a fixed
list of three users. The page shows the todos filtered by completion, five
to a page. It edits one todo at a time in a draft and toggles completion
with a checkbox. After every successful change it re-fetches the whole list.

Files:

- `records.dfy`: `Todo`, `User`, `Option`.
- `todo_table.dfy`: module `TodoTable`. This is what each server handler does to the stored sequence, as functions ("first match" lookup, update, delete), with lemmas about them.
- `backend.dfy`: module `Backend`. Class `TodoStore` holds the `todos` list, which its handler methods change in place. Update and delete scan it with a loop. The `users` list is a constant field.
- `list_view.dfy`: module `ListView`. This is the derived view: the filter, the page count `ceil(n / 5)`, the page slice (with JavaScript `slice` index rules), and the Previous/Next arithmetic.
- `requests.dfy`: module `Requests`. It holds the JavaScript `trim` check, the create body and the toggle body.
- `page.dfy`: module `Page`. Class `TodoPage` has one field per piece of component state and one method per handler.
- `sync.dfy`: module `Sync`. It proves what the server's table becomes after the page's requests, and plays a toggle end to end.

Abstractions:

- A generated uuid is the parameter `newId`. The server never checks that ids are unique, so every statement about lookups is about the first match.
- A network call's outcome is the parameter `ok`.
- The re-fetch after a success is the parameter `server`, which becomes `todos`.
- A 404 answer is `Backend.Response.NotFound`.

Behaviour kept as the code has it:

- Changing the filter does not reset the current page. A page past the end shows an empty slice.
- With 0 pages on page 1, Next is enabled, because `1 === 0` is false. Clicking it sets the page to `min(0, 2) = 0` (`ListView.EmptyListNextGoesToZero`). The page therefore ranges over the integers at or above 0, and `TodoPage.Valid` states that bound.
- Only the emptiness check trims the title. The create body carries the title as typed, untrimmed.
- The filter value is a string. Any value other than "completed" or "uncompleted" keeps every todo.
- A successful toggle goes through `updateTodo`, so it also closes an open edit draft.

## Model

| member | source | states |
|---|---|---|
| TodoTable.FirstIndex | backend/main.py:49-50 | the scan stops at the first todo with the id: that index holds the id and no earlier one does; there is none exactly when no todo has the id |
| TodoTable.FirstIndexByIds | backend/main.py:49-50 | a lookup depends only on the ids, position by position |
| TodoTable.Overwrite | backend/main.py:50-53 | the updated record keeps the stored id (the request's id is ignored) and takes title, completed and user_id from the request |
| TodoTable.AfterUpdate | backend/main.py:47-55 | 404 exactly when no todo has the id; otherwise same length and ids, only the first match changes and it becomes the overwritten record |
| TodoTable.AfterDelete | backend/main.py:57-63 | 404 exactly when no todo has the id; otherwise one shorter, with the entries before and after the first match in their old order |
| TodoTable.CountIdConcat | backend/main.py:59-62 | counting a given id over two joined lists adds the counts |
| TodoTable.DeleteCount | backend/main.py:59-62 | a delete removes exactly one todo with the id and no todo with any other id |
| TodoTable.DeleteMultiset | backend/main.py:59-62 | a delete removes one occurrence of the first matching record and keeps every other record |
| TodoTable.RemoveAtMultiset | backend/main.py:61 | removing one position drops exactly that record's occurrence and keeps all others |
| TodoTable.UpdateIdempotent | backend/main.py:49-54 | repeating an update request leaves the table as the first one did |
| TodoTable.DeleteAfterCreate | backend/main.py:41-63 | creating under an unused generated id and then deleting that id restores the table |
| TodoTable.CreateKeepsLookups | backend/main.py:43-50 | after a create, looking up an id that was present, or that differs from the new id, finds the same entry as before |
| Backend.SeedUsers | backend/main.py:29-33 | the service starts with three users whose ids are distinct |
| Backend.TodoStore.constructor | backend/main.py:29-35 | storage starts with no todos and the three seed users |
| Backend.TodoStore.GetTodos | backend/main.py:37-39 | returns the stored todos and changes nothing |
| Backend.TodoStore.GetUsers | backend/main.py:65-67 | returns the fixed users and changes nothing; `users` is a constant, so no handler can change it |
| Backend.TodoStore.CreateTodo | backend/main.py:41-45 | the returned and stored todo has the generated id and the request's other fields; it is appended and earlier entries keep their places |
| Backend.TodoStore.UpdateTodo | backend/main.py:47-55 | the loop finds the first match: 404 and an unchanged table when none exists, else the table is `AfterUpdate` of the old one and the returned todo is the stored one |
| Backend.TodoStore.DeleteTodo | backend/main.py:57-63 | the loop finds the first match: 404 and an unchanged table when none exists, else the table is `AfterDelete` of the old one and the success message is returned |
| ListView.Filtered | frontend/src/app/page.js:176-180 | no longer than the list, and every todo it keeps passes the filter |
| ListView.Keeps | frontend/src/app/page.js:176-180 | "completed" keeps exactly the completed todos and "uncompleted" exactly the others; only those two values drop anything |
| ListView.FilteredConcat | frontend/src/app/page.js:176-180 | filtering two joined lists gives the two filtered parts in the same order |
| ListView.KeptPositions | frontend/src/app/page.js:176-180 | the positions of the todos that pass the filter, in increasing order, each one holding a todo that passes |
| ListView.KeptPositionsComplete | frontend/src/app/page.js:176-180 | every position whose todo passes the filter is listed |
| ListView.FilteredIsKeptPositions | frontend/src/app/page.js:176-180 | the filtered list is exactly the todos at the passing positions, in list order |
| ListView.FilteredOtherKeepsAll | frontend/src/app/page.js:176-180 | any filter value other than "completed" and "uncompleted" keeps the whole list |
| ListView.CompletedSplit | frontend/src/app/page.js:176-180 | "completed" and "uncompleted" together show every todo exactly once |
| ListView.TotalPages | frontend/src/app/page.js:183 | the page count is the least number of 5-item pages holding all the filtered todos, and it is 0 exactly for an empty list |
| ListView.ResolveIndex | frontend/src/app/page.js:186-189 | a slice bound is clamped to the list, and a negative one counts from the end |
| ListView.JsSlice | frontend/src/app/page.js:186-189 | for bounds 0 <= start <= end, the slice is the clamped range; it never holds more than end - start items |
| ListView.PageSlice | frontend/src/app/page.js:186-189 | at most 5 items; for page p >= 1, the contiguous range from (p-1)*5 to p*5, clamped to the list; empty on page 0 and past the last page; not empty on pages 1 to the page count |
| ListView.PagesPrefix | frontend/src/app/page.js:186-189 | pages 1 to k, joined in order, are the first k*5 filtered todos |
| ListView.PagesCoverList | frontend/src/app/page.js:183-189 | pages 1 to the page count, joined in order, are the whole filtered list |
| ListView.PrevPage | frontend/src/app/page.js:382 | Previous gives page - 1 from page 2 on and 1 otherwise, never below 1 |
| ListView.NextPage | frontend/src/app/page.js:393 | Next gives page + 1 below the page count and the page count otherwise, never above it |
| ListView.PrevEnabled | frontend/src/app/page.js:384 | disabled exactly where a click would not move the page: on page 1; enabled on every other page |
| ListView.NextEnabled | frontend/src/app/page.js:395 | disabled exactly where a click would not move the page: when the page equals the page count; enabled on every other page |
| ListView.NavigationInRange | frontend/src/app/page.js:380-398 | from a page in range, an enabled Previous or Next moves exactly one page and stays in range |
| ListView.NavigationNonNegative | frontend/src/app/page.js:380-398 | Previous leads to page 1 or more and Next to page 0 or more |
| ListView.EmptyListNextGoesToZero | frontend/src/app/page.js:391-398 | with no todos on page 1, Next is enabled and leads to page 0, which shows nothing and from which Previous leads back to 1 |
| ListView.TwelveTodosPageThree | frontend/src/app/page.js:183-189 | twelve todos make three pages; page 3 shows the last two; Next is disabled there |
| Requests.TrimStart | frontend/src/app/page.js:75 | drops exactly the leading whitespace: the result is a suffix that does not start with whitespace |
| Requests.TrimEnd | frontend/src/app/page.js:75 | drops exactly the trailing whitespace: the result is a prefix that does not end with whitespace |
| Requests.Trim | frontend/src/app/page.js:75 | the trimmed title neither starts nor ends with whitespace; a title that already does neither is kept as it is |
| Requests.TrimStartAt | frontend/src/app/page.js:75 | the trimmed-at-the-front title is the input from its first non-whitespace position on, and everything before that position is whitespace |
| Requests.TrimEndAt | frontend/src/app/page.js:75 | the trimmed-at-the-end title is the input up to its last non-whitespace position, and everything after it is whitespace |
| Requests.TrimIsInterior | frontend/src/app/page.js:75 | `trim()` returns exactly the run of the title between its leading and trailing whitespace, with only whitespace before and after it |
| Requests.TrimEmptyIff | frontend/src/app/page.js:75 | a title trims to "" exactly when every character is JavaScript whitespace |
| Requests.AddTodoRequest | frontend/src/app/page.js:74-94 | no request exactly for an all-whitespace title; otherwise id "", the untrimmed title, not completed, and the selected user, or null when none is selected |
| Requests.Toggled | frontend/src/app/page.js:171-173 | the toggle body keeps id, title and user_id and flips completed |
| Page.TodoPage.constructor | frontend/src/app/page.js:44-50 | initial state: no todos or users, empty form, filter "all", page 1, no draft |
| Page.TodoPage.Valid | frontend/src/app/page.js:380-398 | the page number stays at 0 or above; every handler keeps this |
| Page.TodoPage.FilteredTodos | frontend/src/app/page.js:176-180 | the shown list is no longer than `todos` and every todo in it passes the current filter |
| Page.TodoPage.TotalPages | frontend/src/app/page.js:183 | the least number of 5-item pages holding the filtered todos (`Math.ceil(n / 5)`), 0 exactly when none pass |
| Page.TodoPage.PaginatedTodos | frontend/src/app/page.js:186-189 | at most 5 rows; on a page p >= 1, the filtered todos from (p-1)*5 to p*5, clamped to the list; none on page 0 or past the last page; never empty on pages 1 to the page count |
| Page.ShownRows | frontend/src/app/page.js:186-189 | in every reachable state: at most 5 rows; on pages 1 to the page count, the non-empty run of filtered todos from (page - 1) * 5 up to page * 5; none on page 0 or past the last page; so rows are shown exactly on pages 1 to the page count |
| Page.TodoPage.FetchTodos | frontend/src/app/page.js:60-64 | the fetched list replaces `todos` |
| Page.TodoPage.FetchUsers | frontend/src/app/page.js:67-71 | the fetched list replaces `users` |
| Page.TodoPage.Mount | frontend/src/app/page.js:54-57 | mounting loads both the todos and the users |
| Page.TodoPage.SetNewTodoTitle | frontend/src/app/page.js:221-225 | typing sets the form title |
| Page.TodoPage.SetSelectedUser | frontend/src/app/page.js:231-234 | choosing sets the form's user |
| Page.TodoPage.SetFilter | frontend/src/app/page.js:257 | sets the filter and leaves the current page unchanged |
| Page.TodoPage.AddTodo | frontend/src/app/page.js:74-115 | a blank title sends nothing and changes nothing; otherwise it sends `AddTodoRequest`; success re-fetches and clears title and user; failure changes nothing |
| Page.TodoPage.UpdateTodo | frontend/src/app/page.js:118-143 | sends the todo as given; success re-fetches and closes the draft; failure keeps both the list and the draft |
| Page.TodoPage.DeleteTodo | frontend/src/app/page.js:146-168 | sends the id; success re-fetches; failure keeps the list |
| Page.TodoPage.ToggleTodoCompletion | frontend/src/app/page.js:171-173 | sends the todo with only its completion flipped, with the effects of an update |
| Page.TodoPage.BeginEdit | frontend/src/app/page.js:358-363 | the draft becomes the row's todo |
| Page.TodoPage.CancelEdit | frontend/src/app/page.js:349-354 | the draft is dropped |
| Page.TodoPage.EditDraftTitle | frontend/src/app/page.js:296-301 | only the draft's title changes |
| Page.TodoPage.EditDraftUser | frontend/src/app/page.js:311-316 | only the draft's user_id changes, to the chosen id |
| Page.TodoPage.SaveEdit | frontend/src/app/page.js:343-348 | sends the draft as it stands, with the effects of an update |
| Page.TodoPage.PreviousPage | frontend/src/app/page.js:380-387 | disabled on page 1, otherwise `max(1, page - 1)`; the page stays at 0 or above |
| Page.TodoPage.NextPage | frontend/src/app/page.js:391-398 | disabled when the page equals the page count, otherwise `min(totalPages, page + 1)`; the page stays at 0 or above |
| Sync.ToggleAtServer | frontend/src/app/page.js:171-173 | the server answers a toggle of the first stored todo with its id by flipping that todo's completion and nothing else |
| Sync.ToggleTwiceRestores | frontend/src/app/page.js:171-173 | two checkbox clicks on the first stored todo with its id, the second built from the re-fetched list, leave the server's table as it was |
| Sync.SaveDraftAtServer | frontend/src/app/page.js:343-348 | saving a draft opened on the first stored todo with its id, with any title and any user_id (null included), stores it under the same id, in the same place |
| Sync.AddAtServer | frontend/src/app/page.js:85-94 | a non-blank create, stored under an unused id, is the last entry and is found by that id, with the title as typed and not completed |
| Sync.ToggleRoundTrip | frontend/src/app/page.js:118-126 | after toggle, server update and re-fetch, the page shows exactly the server's table; the first entry with the todo's id takes the clicked todo's title and user and the opposite of its completion, or on 404 nothing changes |

## Left out

- HTTP, `fetch`, JSON encoding and decoding, URLs and status codes. A call is reduced to its outcome (`ok`) and, for a re-fetch, the list the server returns. A fetch that fails or returns a body that cannot be decoded is not modelled.
- The FastAPI and pydantic framework, the CORS middleware and request validation. These are library behaviour.
- `uuid4`: the generated id is a parameter. Ids are not assumed unique, and the code never checks them.
- The Python handlers mutate and return the same record object. The model treats records as values, so aliasing of a returned record with the stored one is not modelled.
- async/await interleaving and overlapping requests (the last response wins). Each handler here runs to completion before the next one starts.
- Toast notifications, `CustomToast`, rendering, theme toggling and the UI component libraries.
- The lookup of a user's name for display in a table row. It is presentation only.
- ListView.PageSlice: for a negative page, only the bound of five items is stated. No reachable state has a negative page (`TodoPage.Valid`).

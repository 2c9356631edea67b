/** The records shared by the server and the browser page: a todo item and a user. */
module Records {

  /** An optional value; `None` stands for JSON `null` / Python `None`. */
  datatype Option<+T> = None | Some(value: T)

  /** A todo item. `userId` is the optional id of the assigned user. */
  datatype Todo = Todo(id: string, title: string, completed: bool, userId: Option<string>)

  /** A user a todo can be assigned to; read-only in this system. */
  datatype User = User(id: string, name: string)
}

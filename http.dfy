/**
 * Records held by the server and the JSON responses its routes send back,
 * with the status codes and the exact messages of app.js.
 */
module Http {

  /** A registered user; `password` holds the bcrypt hash, never the plain text. */
  datatype User = User(id: int, username: string, password: string)

  /** A task; `userId` is the id of the user whose token created it. */
  datatype Todo = Todo(id: int, text: string, userId: int)

  /** The JSON body of a response. */
  datatype Body =
    | Message(message: string)
    | TokenIssued(token: string)
    | TodoCreated(todo: Todo)
    | TodoList(todos: seq<Todo>)

  datatype Response = Response(status: int, body: Body)

  const OK := 200
  const Unauthorized := 401
  const Forbidden := 403
  const NotFound := 404

  const TokenRequired := "Token requerido"
  const TokenInvalid := "Token inv\U{E1}lido"
  const UserRegistered := "Usuario registrado"
  const BadCredentials := "Credenciales incorrectas"
  const TodoNotFound := "Tarea no encontrada"
  const TodoDeleted := "Tarea eliminada"
}

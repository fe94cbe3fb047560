/**
 * The server: the two in-memory arrays of app.js as fields of one object, and
 * one method per route. `/register` awaits bcrypt before it pushes; `/login`
 * reads `users` once, before its await, and uses only the user it found; the
 * task routes never await. Users are only appended and each push or splice is
 * synchronous, so each handler is one sequential method.
 */
module App {
  import opened Wrappers
  import opened Http
  import opened Gate
  import opened Users
  import opened Todos

  class TodoApp {
    var users: seq<User>
    var todos: seq<Todo>

    /** Users are only ever appended with id = length + 1. */
    ghost predicate Valid()
      reads this
    {
      SequentialIds(users)
    }

    /** A freshly started server has no users and no tasks. */
    constructor ()
      ensures Valid() && users == [] && todos == []
    {
      users := [];
      todos := [];
    }

    /** `POST /register`: append the user with the next id; there is no uniqueness check and no failure. */
    method Register(username: string, passwordHash: string) returns (resp: Response)
      requires Valid()
      modifies this
      ensures Valid()
      ensures users == old(users) + [User(|old(users)| + 1, username, passwordHash)]
      ensures forall i :: 0 <= i < |old(users)| ==> users[|users| - 1].id != users[i].id
      ensures todos == old(todos)
      ensures resp == Response(OK, Message(UserRegistered))
    {
      var user := User(|users| + 1, username, passwordHash);
      AppendKeepsSequentialIds(users, user);
      users := users + [user];
      resp := Response(OK, Message(UserRegistered));
    }

    /** `POST /login`: the first user of that name, its hash checked by `compare`. */
    method Login(username: string, password: string,
                 compare: (string, string) -> bool, sign: int -> string) returns (resp: Response)
      ensures resp == LoginResponse(users, username, password, compare, sign)
      ensures resp.status == OK <==>
        exists i :: FirstNamed(users, username, i) && compare(password, users[i].password)
    {
      resp := LoginResponse(users, username, password, compare, sign);
    }

    /** `GET /todos` behind the gate: the requester's tasks in store order. */
    method ListTodos(authorization: Option<string>, verify: Option<string> -> Option<int>)
      returns (resp: Response)
      ensures var g := VerifyToken(authorization, verify);
        resp == if g.Rejected? then Response(g.status, Message(g.message))
                else Response(OK, TodoList(OwnedBy(todos, g.userId)))
    {
      var g := VerifyToken(authorization, verify);
      if g.Rejected? {
        resp := Response(g.status, Message(g.message));
        return;
      }
      resp := Response(OK, TodoList(OwnedBy(todos, g.userId)));
    }

    /** `POST /todos` behind the gate: append the task with id = length + 1 and return it. */
    method CreateTodo(authorization: Option<string>, text: string, verify: Option<string> -> Option<int>)
      returns (resp: Response)
      modifies this
      ensures users == old(users)
      ensures var g := VerifyToken(authorization, verify);
        if g.Rejected? then
          todos == old(todos) && resp == Response(g.status, Message(g.message))
        else
          todos == Appended(old(todos), text, g.userId) &&
          resp == Response(OK, TodoCreated(Todo(|old(todos)| + 1, text, g.userId)))
    {
      var g := VerifyToken(authorization, verify);
      if g.Rejected? {
        resp := Response(g.status, Message(g.message));
        return;
      }
      var todo := NextTodo(todos, text, g.userId);
      todos := Appended(todos, text, g.userId);
      resp := Response(OK, TodoCreated(todo));
    }

    /**
     * `DELETE /todos/:id` behind the gate: splice out the first task with that id
     * owned by the requester; 404 and no change when there is none, whether the id
     * is absent or belongs to another user.
     */
    method DeleteTodo(authorization: Option<string>, id: Option<int>, verify: Option<string> -> Option<int>)
      returns (resp: Response)
      modifies this
      ensures users == old(users)
      ensures var g := VerifyToken(authorization, verify);
        if g.Rejected? then
          todos == old(todos) && resp == Response(g.status, Message(g.message))
        else
          var i := FindTodoIndex(old(todos), id, g.userId);
          if i == -1 then
            todos == old(todos) && resp == Response(NotFound, Message(TodoNotFound))
          else
            todos == RemoveAt(old(todos), i) && resp == Response(OK, Message(TodoDeleted))
      ensures VerifyToken(authorization, verify).Authorized? ==>
        todos == AfterDelete(old(todos), id, VerifyToken(authorization, verify).userId)
    {
      var g := VerifyToken(authorization, verify);
      if g.Rejected? {
        resp := Response(g.status, Message(g.message));
        return;
      }
      var index := FindTodoIndex(todos, id, g.userId);
      if index == -1 {
        resp := Response(NotFound, Message(TodoNotFound));
        return;
      }
      assert AfterDelete(todos, id, g.userId) == RemoveAt(todos, index);
      todos := AfterDelete(todos, id, g.userId);
      resp := Response(OK, Message(TodoDeleted));
    }
  }
}

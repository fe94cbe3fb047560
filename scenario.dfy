/**
 * One session against a fresh server: register alice, log in, create a task,
 * list it, delete it and list again; plus the two gate rejections.
 */
module Scenario {
  import opened Wrappers
  import opened Http
  import opened Gate
  import opened Users
  import opened Todos
  import opened App

  method AliceSession(passwordHash: string, compare: (string, string) -> bool,
                      sign: int -> string, verify: Option<string> -> Option<int>)
    returns (login: Response, created: Response, listed: Response, deleted: Response,
             relisted: Response)
    requires compare("pw", passwordHash)
    requires ' ' !in sign(1) && verify(Some(sign(1))) == Some(1)
    ensures login == Response(OK, TokenIssued(sign(1)))
    ensures created == Response(OK, TodoCreated(Todo(1, "buy milk", 1)))
    ensures listed == Response(OK, TodoList([Todo(1, "buy milk", 1)]))
    ensures deleted == Response(OK, Message(TodoDeleted))
    ensures relisted == Response(OK, TodoList([]))
  {
    var app := new TodoApp();
    var registered := app.Register("alice", passwordHash);
    assert app.users == [User(1, "alice", passwordHash)];
    FindUserIsFirst(app.users, "alice", 0);
    login := app.Login("alice", "pw", compare, sign);

    var header := Some("Bearer " + login.body.token);
    BearerHeaderAuthorizes(sign(1), 1, verify);
    created, listed, deleted, relisted := BuyMilk(app, header, verify);
  }

  /** The task part of the session, for a header that authorizes user 1 on an empty store. */
  method BuyMilk(app: TodoApp, header: Option<string>, verify: Option<string> -> Option<int>)
    returns (created: Response, listed: Response, deleted: Response, relisted: Response)
    requires app.todos == [] && VerifyToken(header, verify) == Authorized(1)
    modifies app
    ensures app.todos == [] && app.users == old(app.users)
    ensures created == Response(OK, TodoCreated(Todo(1, "buy milk", 1)))
    ensures listed == Response(OK, TodoList([Todo(1, "buy milk", 1)]))
    ensures deleted == Response(OK, Message(TodoDeleted))
    ensures relisted == Response(OK, TodoList([]))
  {
    OneTaskLifecycle("buy milk", 1);
    created := app.CreateTodo(header, "buy milk", verify);
    assert app.todos == [Todo(1, "buy milk", 1)];
    listed := app.ListTodos(header, verify);
    deleted := app.DeleteTodo(header, Some(1), verify);
    assert app.todos == [];
    relisted := app.ListTodos(header, verify);
  }

  /** On an empty store: create gives task 1, the owner lists it alone, deleting id 1 empties the store. */
  lemma OneTaskLifecycle(text: string, userId: int)
    ensures Appended([], text, userId) == [Todo(1, text, userId)]
    ensures OwnedBy([Todo(1, text, userId)], userId) == [Todo(1, text, userId)]
    ensures FindTodoIndex([Todo(1, text, userId)], Some(1), userId) == 0
    ensures AfterDelete([Todo(1, text, userId)], Some(1), userId) == []
    ensures OwnedBy([], userId) == []
  {
    OwnedBySingle(Todo(1, text, userId), userId);
  }

  /** No header is 403; a present header whose token does not verify is 401. */
  lemma MissingAndGarbageHeaders(verify: Option<string> -> Option<int>)
    requires verify(Some("garbage")) == None
    ensures VerifyToken(None, verify) == Rejected(Forbidden, TokenRequired)
    ensures VerifyToken(Some("Bearer garbage"), verify) == Rejected(Unauthorized, TokenInvalid)
  {
    assert "Bearer garbage" == "Bearer" + " " + "garbage" + "";
    SecondPieceOf("Bearer", "garbage", "");
  }
}

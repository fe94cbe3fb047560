/**
 * The task store's operations on the `todos` array: the owner filter of
 * `GET /todos`, the append of `POST /todos`, and the `findIndex` + `splice`
 * of `DELETE /todos/:id`. Ids come from the array's length, so they are not
 * unique once a task has been deleted.
 */
module Todos {
  import opened Wrappers
  import opened Http

  /** `todos.filter(todo => todo.userId === userId)`: exactly the requester's tasks, never another user's. */
  function OwnedBy(todos: seq<Todo>, userId: int): (r: seq<Todo>)
    ensures forall t :: t in r <==> t in todos && t.userId == userId
  {
    if todos == [] then []
    else
      var rest := OwnedBy(todos[1..], userId);
      assert todos == [todos[0]] + todos[1..];
      (if todos[0].userId == userId then [todos[0]] else []) + rest
  }

  /** The filter keeps store order: filtering a concatenation concatenates the filtered parts. */
  lemma {:induction false} OwnedByConcat(a: seq<Todo>, b: seq<Todo>, userId: int)
    ensures OwnedBy(a + b, userId) == OwnedBy(a, userId) + OwnedBy(b, userId)
  {
    if a == [] {
      assert a + b == b;
    } else {
      var head := if a[0].userId == userId then [a[0]] else [];
      assert (a + b)[1..] == a[1..] + b;
      assert (a + b)[0] == a[0];
      calc {
        OwnedBy(a + b, userId);
        head + OwnedBy(a[1..] + b, userId);
        { OwnedByConcat(a[1..], b, userId); }
        head + (OwnedBy(a[1..], userId) + OwnedBy(b, userId));
        (head + OwnedBy(a[1..], userId)) + OwnedBy(b, userId);
      }
    }
  }

  /** The filter of a single task keeps it exactly when it belongs to the requester. */
  lemma OwnedBySingle(t: Todo, userId: int)
    ensures OwnedBy([t], userId) == if t.userId == userId then [t] else []
  {
    assert [t][1..] == [];
  }

  /**
   * The record `POST /todos` creates: owned by the requester, with an id taken
   * from the current length alone, whatever ids the live tasks carry.
   */
  function NextTodo(todos: seq<Todo>, text: string, userId: int): (t: Todo)
    ensures t.id == |todos| + 1 && t.text == text && t.userId == userId
  {
    Todo(|todos| + 1, text, userId)
  }

  /** The store after `todos.push(todo)`. */
  function Appended(todos: seq<Todo>, text: string, userId: int): (r: seq<Todo>)
    ensures |r| == |todos| + 1 && r[..|todos|] == todos
    ensures r[|todos|] == Todo(|todos| + 1, text, userId)
  {
    todos + [NextTodo(todos, text, userId)]
  }

  /** Creating a task adds it to the end of its owner's list and changes no one else's. */
  lemma AppendedOwnedBy(todos: seq<Todo>, text: string, owner: int, userId: int)
    ensures OwnedBy(Appended(todos, text, owner), userId) ==
      if userId == owner then OwnedBy(todos, userId) + [NextTodo(todos, text, owner)]
      else OwnedBy(todos, userId)
  {
    OwnedByConcat(todos, [NextTodo(todos, text, owner)], userId);
    OwnedBySingle(NextTodo(todos, text, owner), userId);
  }

  /**
   * The `findIndex` predicate: `todo.id === id && todo.userId === userId`.
   * A NaN id (`None`) matches nothing, and another user's task never matches.
   */
  predicate Matches(t: Todo, id: Option<int>, userId: int)
    ensures id.None? ==> !Matches(t, id, userId)
    ensures t.userId != userId ==> !Matches(t, id, userId)
  {
    id == Some(t.id) && t.userId == userId
  }

  /** `todos.findIndex(...)`: the first matching index, or -1 when none matches. */
  function FindTodoIndex(todos: seq<Todo>, id: Option<int>, userId: int): (r: int)
    ensures -1 <= r < |todos|
    ensures r == -1 <==> forall k :: 0 <= k < |todos| ==> !Matches(todos[k], id, userId)
    ensures r >= 0 ==> Matches(todos[r], id, userId) &&
                       forall k :: 0 <= k < r ==> !Matches(todos[k], id, userId)
  {
    if todos == [] then -1
    else if Matches(todos[0], id, userId) then 0
    else
      var r := FindTodoIndex(todos[1..], id, userId);
      if r == -1 then -1 else r + 1
  }

  /** `todos.splice(i, 1)`: the element at i leaves, the others keep their order. */
  function RemoveAt(todos: seq<Todo>, i: int): (r: seq<Todo>)
    requires 0 <= i < |todos|
    ensures |r| == |todos| - 1
    ensures forall k :: 0 <= k < i ==> r[k] == todos[k]
    ensures forall k :: i <= k < |r| ==> r[k] == todos[k + 1]
    ensures multiset(r) + multiset{todos[i]} == multiset(todos)
  {
    assert todos == todos[..i] + [todos[i]] + todos[i + 1..];
    todos[..i] + todos[i + 1..]
  }

  /** Every task other than the spliced one is still in the store. */
  lemma RemoveAtKeepsOthers(todos: seq<Todo>, i: int)
    requires 0 <= i < |todos|
    ensures forall t :: t in todos && t != todos[i] ==> t in RemoveAt(todos, i)
  {
    var r := RemoveAt(todos, i);
    forall t | t in todos && t != todos[i] ensures t in r {
      var k :| 0 <= k < |todos| && todos[k] == t;
      if k < i { assert r[k] == t; } else { assert r[k - 1] == t; }
    }
  }

  /**
   * The store after `DELETE /todos/:id` by `userId`: unchanged exactly when no
   * task matches, otherwise the first match spliced out and every other task kept in order.
   */
  function AfterDelete(todos: seq<Todo>, id: Option<int>, userId: int): (r: seq<Todo>)
    ensures r == todos <==> forall k :: 0 <= k < |todos| ==> !Matches(todos[k], id, userId)
    ensures var i := FindTodoIndex(todos, id, userId); i != -1 ==> r == RemoveAt(todos, i)
    ensures |r| == |todos| || |r| == |todos| - 1
    ensures multiset(r) <= multiset(todos)
    ensures forall t :: t in todos && !Matches(t, id, userId) ==> t in r
  {
    var i := FindTodoIndex(todos, id, userId);
    if i == -1 then todos
    else
      var r := RemoveAt(todos, i);
      RemoveAtKeepsOthers(todos, i);
      assert |r| < |todos| && Matches(todos[i], id, userId);
      assert multiset(r) + multiset{todos[i]} == multiset(todos);
      r
  }

  /** The filter of a store split around index i, before and after the splice. */
  lemma {:induction false} OwnedByAround(todos: seq<Todo>, i: int, userId: int)
    requires 0 <= i < |todos|
    ensures OwnedBy(todos, userId) ==
      OwnedBy(todos[..i], userId) + OwnedBy([todos[i]], userId) + OwnedBy(todos[i + 1..], userId)
    ensures OwnedBy(RemoveAt(todos, i), userId) ==
      OwnedBy(todos[..i], userId) + OwnedBy(todos[i + 1..], userId)
  {
    var before, after := todos[..i], todos[i + 1..];
    assert todos == (before + [todos[i]]) + after;
    OwnedByConcat(before + [todos[i]], after, userId);
    OwnedByConcat(before, [todos[i]], userId);
    assert RemoveAt(todos, i) == before + after;
    OwnedByConcat(before, after, userId);
  }

  /** Deleting changes no other user's list: another user's task can never be removed. */
  lemma AfterDeleteKeepsOthers(todos: seq<Todo>, id: Option<int>, owner: int, userId: int)
    requires userId != owner
    ensures OwnedBy(AfterDelete(todos, id, owner), userId) == OwnedBy(todos, userId)
  {
    var i := FindTodoIndex(todos, id, owner);
    if i != -1 {
      var before, after := OwnedBy(todos[..i], userId), OwnedBy(todos[i + 1..], userId);
      OwnedByAround(todos, i, userId);
      calc {
        OwnedBy(AfterDelete(todos, id, owner), userId);
        OwnedBy(RemoveAt(todos, i), userId);
        before + after;
        { assert before + [] == before; }
        before + [] + after;
        { OwnedBySingle(todos[i], userId); }
        before + OwnedBy([todos[i]], userId) + after;
        OwnedBy(todos, userId);
      }
    }
  }

  /** Splicing out one of the owner's tasks drops exactly that task from the owner's list. */
  lemma RemoveAtOwnList(todos: seq<Todo>, i: int, owner: int)
    requires 0 <= i < |todos| && todos[i].userId == owner
    ensures OwnedBy(todos, owner) ==
      OwnedBy(todos[..i], owner) + [todos[i]] + OwnedBy(todos[i + 1..], owner)
    ensures OwnedBy(RemoveAt(todos, i), owner) ==
      OwnedBy(todos[..i], owner) + OwnedBy(todos[i + 1..], owner)
  {
    OwnedByAround(todos, i, owner);
    OwnedBySingle(todos[i], owner);
  }

  /**
   * A successful delete takes the first matching task out of the owner's own
   * list at the position it held there, and nothing else.
   */
  lemma AfterDeleteOwnList(todos: seq<Todo>, id: Option<int>, owner: int)
    requires FindTodoIndex(todos, id, owner) != -1
    ensures var i := FindTodoIndex(todos, id, owner);
      var before := OwnedBy(todos[..i], owner);
      OwnedBy(todos, owner) == before + [todos[i]] + OwnedBy(todos[i + 1..], owner) &&
      OwnedBy(AfterDelete(todos, id, owner), owner) == before + OwnedBy(todos[i + 1..], owner)
  {
    var i := FindTodoIndex(todos, id, owner);
    assert AfterDelete(todos, id, owner) == RemoveAt(todos, i);
    RemoveAtOwnList(todos, i, owner);
  }

  /**
   * Ids are not unique: after any successful delete, if a remaining task
   * carries the id equal to the old length, the next create gives a second
   * live task with that same id.
   */
  lemma CreateAfterDeleteReusesId(todos: seq<Todo>, id: Option<int>, owner: int, j: int,
                                  text: string, userId: int)
    requires FindTodoIndex(todos, id, owner) != -1
    requires 0 <= j < |todos| && j != FindTodoIndex(todos, id, owner)
    requires todos[j].id == |todos|
    ensures var rest := AfterDelete(todos, id, owner);
      var after := Appended(rest, text, userId);
      todos[j] in rest && after[|rest|].id == todos[j].id && |after| == |todos|
  {
    var i := FindTodoIndex(todos, id, owner);
    var rest := AfterDelete(todos, id, owner);
    assert rest == RemoveAt(todos, i);
    if j < i {
      assert rest[j] == todos[j];
    } else {
      assert rest[j - 1] == todos[j];
    }
  }

  /** Create 1, create 2, delete 1, create: two live tasks both carry id 2. */
  lemma IdReuseExample(text: string, userId: int)
    ensures var s := Appended(Appended([], text, userId), text, userId);
      var t := Appended(AfterDelete(s, Some(1), userId), text, userId);
      t == [Todo(2, text, userId), Todo(2, text, userId)]
  {
    var s := Appended(Appended([], text, userId), text, userId);
    assert s == [Todo(1, text, userId), Todo(2, text, userId)];
    assert FindTodoIndex(s, Some(1), userId) == 0;
  }
}

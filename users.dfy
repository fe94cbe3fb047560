/**
 * The user store's queries: `users.find` by username and the `/login` decision.
 * bcrypt's `compare` and jsonwebtoken's `sign` are parameters.
 */
module Users {
  import opened Wrappers
  import opened Http

  /** `/register` gives user i (counting from 0) the id i + 1, and users are never removed. */
  ghost predicate SequentialIds(users: seq<User>)
  {
    forall i :: 0 <= i < |users| ==> users[i].id == i + 1
  }

  /** Index i holds the first user called `username`. */
  ghost predicate FirstNamed(users: seq<User>, username: string, i: int)
  {
    0 <= i < |users| && users[i].username == username &&
    forall j :: 0 <= j < i ==> users[j].username != username
  }

  /** Appending a user keeps ids sequential exactly when the new id is the old length + 1. */
  lemma AppendKeepsSequentialIds(users: seq<User>, u: User)
    requires SequentialIds(users)
    ensures SequentialIds(users + [u]) <==> u.id == |users| + 1
  {
    assert (users + [u])[|users|] == u;
  }

  /** Sequential ids are pairwise distinct, duplicate usernames included. */
  lemma SequentialIdsDistinct(users: seq<User>, i: int, j: int)
    requires SequentialIds(users)
    requires 0 <= i < |users| && 0 <= j < |users| && i != j
    ensures users[i].id != users[j].id
  {
  }

  /** `users.find(u => u.username === username)`: the first user with that name. */
  function FindUser(users: seq<User>, username: string): (r: Option<User>)
    ensures r.None? <==> forall i :: 0 <= i < |users| ==> users[i].username != username
    ensures r.Some? ==> exists i :: FirstNamed(users, username, i) && users[i] == r.value
  {
    if users == [] then None
    else if users[0].username == username then
      assert FirstNamed(users, username, 0);
      Some(users[0])
    else
      var r := FindUser(users[1..], username);
      assert r.Some? ==> exists k :: FirstNamed(users, username, k) && users[k] == r.value by {
        if r.Some? {
          var i :| FirstNamed(users[1..], username, i) && users[1..][i] == r.value;
          assert FirstNamed(users, username, i + 1);
        }
      }
      r
  }

  /** The first user of a name is unique: whichever index is first, `FindUser` returns it. */
  lemma FindUserIsFirst(users: seq<User>, username: string, i: int)
    requires FirstNamed(users, username, i)
    ensures FindUser(users, username) == Some(users[i])
  {
    var r := FindUser(users, username);
    var k :| FirstNamed(users, username, k) && users[k] == r.value;
    assert !(k < i) && !(i < k);
  }

  /**
   * `/login`: 401 with the one message "Credenciales incorrectas" unless the first
   * user of that name exists and the password matches its hash; then 200 with a
   * token signed for that user's id.
   */
  function LoginResponse(users: seq<User>, username: string, password: string,
                         compare: (string, string) -> bool, sign: int -> string): (resp: Response)
    ensures resp == Response(Unauthorized, Message(BadCredentials)) || resp.status == OK
    ensures resp.status == OK <==>
      exists i :: FirstNamed(users, username, i) && compare(password, users[i].password)
    ensures resp.status == OK ==>
      exists i :: FirstNamed(users, username, i) && resp.body == TokenIssued(sign(users[i].id))
  {
    match FindUser(users, username)
    case None => Response(Unauthorized, Message(BadCredentials))
    case Some(user) =>
      if !compare(password, user.password) then Response(Unauthorized, Message(BadCredentials))
      else Response(OK, TokenIssued(sign(user.id)))
  }

  /** An unknown username and a wrong password get the identical rejection. */
  lemma LoginRejectionIsUniform(users: seq<User>, unknown: string, known: string, i: int,
                                password: string, compare: (string, string) -> bool, sign: int -> string)
    requires forall k :: 0 <= k < |users| ==> users[k].username != unknown
    requires FirstNamed(users, known, i) && !compare(password, users[i].password)
    ensures LoginResponse(users, unknown, password, compare, sign) ==
            LoginResponse(users, known, password, compare, sign) ==
            Response(Unauthorized, Message(BadCredentials))
  {
    FindUserIsFirst(users, known, i);
  }

  /** Of several users with one name the earliest registered wins: its id is the token's subject. */
  lemma EarliestDuplicateWins(users: seq<User>, username: string, i: int, password: string,
                              compare: (string, string) -> bool, sign: int -> string)
    requires SequentialIds(users)
    requires FirstNamed(users, username, i) && compare(password, users[i].password)
    ensures LoginResponse(users, username, password, compare, sign) == Response(OK, TokenIssued(sign(i + 1)))
  {
    FindUserIsFirst(users, username, i);
  }

  /**
   * A later user sharing the name can never log in with a password that fails
   * against the earliest one, even when it matches its own hash.
   */
  lemma LaterDuplicateShadowed(users: seq<User>, i: int, j: int, password: string,
                               compare: (string, string) -> bool, sign: int -> string)
    requires 0 <= i < j < |users| && users[i].username == users[j].username
    requires forall k :: 0 <= k < |users| && users[k].username == users[j].username ==>
               (compare(password, users[k].password) <==> k == j)
    ensures LoginResponse(users, users[j].username, password, compare, sign) ==
            Response(Unauthorized, Message(BadCredentials))
  {
    var r := FindUser(users, users[j].username);
    var k :| FirstNamed(users, users[j].username, k) && users[k] == r.value;
    assert k <= i;
  }
}

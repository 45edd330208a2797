/**
 * The backend process: the two module-level arrays and the six route
 * handlers. Each handler runs to completion before the next one starts.
 */
module Server {
  import opened Wrappers
  import opened Crypto
  import opened Auth
  import opened Todos
  import opened Users

  /** The reply bodies the handlers send. */
  datatype Body =
    | Text(text: string)                 // res.send / sendStatus
    | AccessToken(accessToken: string)   // res.json({ accessToken })
    | TodoJson(todo: Todo)               // res.json(todo)
    | TodoListJson(todos: seq<Todo>)     // res.json(todos)
    | ErrorJson(error: string)           // res.json({ error })
    | Empty                              // res.send() with 204

  datatype Response = Response(status: int, body: Body)

  /** What the middleware replies when it stops a request. */
  function Refusal(d: Decision): (r: Response)
    requires !d.Authenticated?
    ensures r.status == (if d.Unauthenticated? then 401 else 403)
  {
    if d.Unauthenticated? then Response(401, Text("Unauthorized"))
    else Response(403, Text("Forbidden"))
  }

  class Backend {
    var users: seq<User>
    var todos: seq<Todo>

    constructor ()
      ensures users == [] && todos == []
    {
      users := [];
      todos := [];
    }

    /** POST /api/register: always appends, never checks for a taken name. */
    method Register(username: string, password: string, hasher: Hasher, salt: nat, now: int)
      returns (resp: Response)
      modifies this
      ensures todos == old(todos)
      ensures match hasher.hash(password, SaltRounds, salt)
        case None =>
          users == old(users) && resp == Response(500, Text("Error registering user"))
        case Some(digest) =>
          users == old(users) + [User(now, username, digest)] &&
          resp == Response(201, Text("User registered successfully"))
    {
      match hasher.hash(password, SaltRounds, salt)
      case None =>
        resp := Response(500, Text("Error registering user"));
      case Some(digest) =>
        users := users + [User(now, username, digest)];
        resp := Response(201, Text("User registered successfully"));
    }

    /**
     * POST /api/login: the first user with the name is checked; only a
     * password bcrypt accepts for that user yields a token, and the token
     * carries that user's id and name.
     */
    method Login(username: string, password: string, hasher: Hasher, jwt: Jwt)
      returns (resp: Response)
      ensures FindUser(users, username).None? <==> resp == Response(400, Text("Cannot find user"))
      ensures resp.body.AccessToken? <==>
        FindUser(users, username).Some? &&
        hasher.compare(password, FindUser(users, username).value.password) == Some(true)
      ensures resp.body.AccessToken? ==>
        var u := FindUser(users, username).value;
        resp == Response(200, AccessToken(jwt.sign(Claims(u.id, u.username))))
      ensures FindUser(users, username).Some? ==>
        match hasher.compare(password, FindUser(users, username).value.password)
        case None => resp == Response(500, Text("Error logging in"))
        case Some(ok) => ok || resp == Response(200, Text("Not Allowed"))
    {
      var user := FindUser(users, username);
      if user.None? {
        return Response(400, Text("Cannot find user"));
      }
      match hasher.compare(password, user.value.password)
      case None =>
        resp := Response(500, Text("Error logging in"));
      case Some(ok) =>
        if ok {
          var accessToken := jwt.sign(Claims(user.value.id, user.value.username));
          resp := Response(200, AccessToken(accessToken));
        } else {
          resp := Response(200, Text("Not Allowed"));
        }
    }

    /** GET /api/todos: exactly the caller's todos, in storage order. */
    method ListTodos(authorization: Option<string>, jwt: Jwt) returns (resp: Response)
      ensures match Authenticate(authorization, jwt)
        case Authenticated(user) =>
          resp.status == 200 && resp.body.TodoListJson? &&
          (forall t :: t in resp.body.todos <==> t in todos && t.userId == user.id) &&
          resp.body.todos == ListOwned(todos, user.id)
        case Unauthenticated => resp == Response(401, Text("Unauthorized"))
        case Forbidden => resp == Response(403, Text("Forbidden"))
    {
      var decision := Authenticate(authorization, jwt);
      if !decision.Authenticated? {
        return Refusal(decision);
      }
      resp := Response(200, TodoListJson(ListOwned(todos, decision.user.id)));
    }

    /** POST /api/todos: appends one open todo owned by the caller. */
    method AddTodo(authorization: Option<string>, jwt: Jwt, text: string, now: int)
      returns (resp: Response)
      modifies this
      ensures users == old(users)
      ensures match Authenticate(authorization, jwt)
        case Authenticated(user) =>
          var t := Todo(now, user.id, text, false);
          todos == old(todos) + [t] && resp == Response(201, TodoJson(t))
        case Unauthenticated => todos == old(todos) && resp == Response(401, Text("Unauthorized"))
        case Forbidden => todos == old(todos) && resp == Response(403, Text("Forbidden"))
    {
      var decision := Authenticate(authorization, jwt);
      if !decision.Authenticated? {
        return Refusal(decision);
      }
      var newTodo := Todo(now, decision.user.id, text, false);
      todos := todos + [newTodo];
      resp := Response(201, TodoJson(newTodo));
    }

    /**
     * PUT /api/todos/:id: spreads the body over the first record with that id
     * owned by the caller; 404 when there is none.
     */
    method UpdateTodo(authorization: Option<string>, jwt: Jwt, id: Option<int>, patch: Patch)
      returns (resp: Response)
      modifies this
      ensures users == old(users) && |todos| == |old(todos)|
      ensures match Authenticate(authorization, jwt)
        case Authenticated(user) =>
          var k := FindIndex(old(todos), id, user.id);
          if k == -1 then
            todos == old(todos) && resp == Response(404, ErrorJson("Todo not found"))
          else
            todos == old(todos)[k := Merge(old(todos)[k], patch)] &&
            resp == Response(200, TodoJson(todos[k]))
        case Unauthenticated => todos == old(todos) && resp == Response(401, Text("Unauthorized"))
        case Forbidden => todos == old(todos) && resp == Response(403, Text("Forbidden"))
      // whoever calls, no record of another user is touched
      ensures forall i | 0 <= i < |todos| ::
        (!Authenticate(authorization, jwt).Authenticated? ||
         old(todos)[i].userId != Authenticate(authorization, jwt).user.id) ==> todos[i] == old(todos)[i]
      ensures id.None? ==> todos == old(todos)
    {
      var decision := Authenticate(authorization, jwt);
      if !decision.Authenticated? {
        return Refusal(decision);
      }
      var index := FindIndex(todos, id, decision.user.id);
      if index != -1 {
        todos := todos[index := Merge(todos[index], patch)];
        resp := Response(200, TodoJson(todos[index]));
      } else {
        resp := Response(404, ErrorJson("Todo not found"));
      }
    }

    /** DELETE /api/todos/:id: drops every record with that id owned by the caller. */
    method DeleteTodo(authorization: Option<string>, jwt: Jwt, id: Option<int>)
      returns (resp: Response)
      modifies this
      ensures users == old(users)
      ensures match Authenticate(authorization, jwt)
        case Authenticated(user) =>
          todos == Without(old(todos), id, user.id) && resp == Response(204, Empty)
        case Unauthenticated => todos == old(todos) && resp == Response(401, Text("Unauthorized"))
        case Forbidden => todos == old(todos) && resp == Response(403, Text("Forbidden"))
    {
      var decision := Authenticate(authorization, jwt);
      if !decision.Authenticated? {
        return Refusal(decision);
      }
      todos := Without(todos, id, decision.user.id);
      resp := Response(204, Empty);
    }
  }

  /**
   * Registering a fresh name and then logging in with the same password
   * yields a token that the middleware accepts as exactly that account.
   */
  method RegisterThenLogin(server: Backend, username: string, password: string,
                           hasher: Hasher, jwt: Jwt, salt: nat, now: int)
    returns (login: Response)
    requires HasherSound(hasher) && JwtSound(jwt)
    requires hasher.hash(password, SaltRounds, salt).Some?
    requires FindUser(server.users, username).None?
    modifies server
    ensures server.users == old(server.users) + [User(now, username, hasher.hash(password, SaltRounds, salt).value)]
    ensures server.todos == old(server.todos)
    ensures login == Response(200, AccessToken(jwt.sign(Claims(now, username))))
    ensures Authenticate(Some("Bearer " + login.body.accessToken), jwt) == Authenticated(Claims(now, username))
  {
    var r := server.Register(username, password, hasher, salt, now);
    NewUserFound(old(server.users), User(now, username, hasher.hash(password, SaltRounds, salt).value));
    login := server.Login(username, password, hasher, jwt);
    SignedTokenAuthenticates(jwt, Claims(now, username));
  }

  /**
   * A client session on a fresh backend: register, log in, then add, list,
   * complete and delete a todo with the token the login returned.
   */
  method Session(hasher: Hasher, jwt: Jwt, salt: nat, t0: int, t1: int)
    requires HasherSound(hasher) && JwtSound(jwt)
    requires hasher.hash("pw1", SaltRounds, salt).Some?
  {
    var server := new Backend();
    var r := RegisterThenLogin(server, "alice", "pw1", hasher, jwt, salt, t0);
    var header := Some("Bearer " + r.body.accessToken);

    r := server.AddTodo(header, jwt, "milk", t1);
    var milk := Todo(t1, t0, "milk", false);
    assert r == Response(201, TodoJson(milk));

    r := server.ListTodos(header, jwt);
    assert r.body.todos == [milk];

    r := server.UpdateTodo(header, jwt, Some(t1), Patch(None, None, None, Some(true)));
    assert r == Response(200, TodoJson(milk.(completed := true)));

    r := server.DeleteTodo(header, jwt, Some(t1));
    assert r.status == 204;
    r := server.ListTodos(header, jwt);
    assert r.body.todos == [];
  }
}

/**
 * The credential list: records `{id, username, password}` where `password`
 * is the bcrypt digest, appended on registration and searched on login.
 */
module Users {
  import opened Wrappers

  datatype User = User(id: int, username: string, password: string)

  /** `users.find(user => user.username === username)`. */
  function FindUser(users: seq<User>, username: string): (r: Option<User>)
    ensures r.None? <==> forall i | 0 <= i < |users| :: users[i].username != username
    ensures r.Some? ==> r.value in users && r.value.username == username
  {
    if users == [] then None
    else if users[0].username == username then Some(users[0])
    else FindUser(users[1..], username)
  }

  /** The lookup answers from the earlier part of the list whenever it can. */
  lemma {:induction false} FindUserAppend(a: seq<User>, b: seq<User>, username: string)
    ensures FindUser(a + b, username) ==
            if FindUser(a, username).Some? then FindUser(a, username) else FindUser(b, username)
  {
    if a == [] {
      assert a + b == b;
    } else {
      assert (a + b)[0] == a[0] && (a + b)[1..] == a[1..] + b;
      FindUserAppend(a[1..], b, username);
    }
  }

  /** The lookup gives the first user registered under the name. */
  lemma {:induction false} FindUserFirst(users: seq<User>, username: string, i: nat)
    requires i < |users| && users[i].username == username
    requires forall j | 0 <= j < i :: users[j].username != username
    ensures FindUser(users, username) == Some(users[i])
  {
    if i > 0 {
      FindUserFirst(users[1..], username, i - 1);
    }
  }

  /**
   * Registering a name that is already taken is accepted, but the new record
   * is never the one a login finds.
   */
  lemma DuplicateShadowed(users: seq<User>, u: User)
    requires FindUser(users, u.username).Some?
    ensures FindUser(users + [u], u.username) == FindUser(users, u.username)
  {
    FindUserAppend(users, [u], u.username);
  }

  /** A name registered for the first time finds the new record. */
  lemma NewUserFound(users: seq<User>, u: User)
    requires FindUser(users, u.username).None?
    ensures FindUser(users + [u], u.username) == Some(u)
  {
    FindUserAppend(users, [u], u.username);
  }
}

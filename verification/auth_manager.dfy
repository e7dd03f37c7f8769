/** `AuthManager` (src/AuthManager.cpp): registration against the users
    table and the set of logged-in users.  Hashing and verification are
    given functions; the users table stands for the database's. */
module AuthManagers {
  /** `hashPassword` and `verifyPassword(password, storedHash)`. */
  type Hasher = string -> string
  type Verifier = (string, string) -> bool

  /** `findUser` finds the name and `verifyPassword` accepts the password. */
  predicate Accepted(users: map<string, string>, username: string, password: string, verify: Verifier) {
    username in users && verify(password, users[username])
  }

  /** The active set after `loginUser`. */
  function SessionsAfterLogin(active: set<string>, users: map<string, string>, username: string,
                              password: string, verify: Verifier): (r: set<string>)
    ensures username in r <==> username in active || Accepted(users, username, password, verify)
    ensures forall x :: x != username ==> (x in r <==> x in active)
  {
    if Accepted(users, username, password, verify) then active + {username} else active
  }

  /** The active set after `logoutUser`. */
  function SessionsAfterLogout(active: set<string>, username: string): (r: set<string>)
    ensures username !in r
    ensures forall x :: x != username ==> (x in r <==> x in active)
  {
    active - {username}
  }

  /** A login that succeeds opens a session. */
  lemma LoginOpensSession(active: set<string>, users: map<string, string>, username: string, password: string, verify: Verifier)
    requires Accepted(users, username, password, verify)
    ensures username in SessionsAfterLogin(active, users, username, password, verify)
  {
  }

  /** A repeat login leaves the set as it was after the first. */
  lemma LoginIdempotent(active: set<string>, users: map<string, string>, username: string, password: string, verify: Verifier)
    ensures var once := SessionsAfterLogin(active, users, username, password, verify);
            SessionsAfterLogin(once, users, username, password, verify) == once
  {
  }

  /** Logging out after a login restores a set that did not hold the user. */
  lemma LogoutUndoesLogin(active: set<string>, users: map<string, string>, username: string, password: string, verify: Verifier)
    requires username !in active
    ensures SessionsAfterLogout(SessionsAfterLogin(active, users, username, password, verify), username) == active
  {
  }

  class AuthManager {
    /** The users table: name to stored hash. */
    var users: map<string, string>
    var activeUsers: set<string>

    constructor(users: map<string, string>)
      ensures this.users == users && activeUsers == {}
    {
      this.users := users;
      activeUsers := {};
    }

    /** `registerUser`: refuses an empty name or password before hashing,
        and a name already in the table (the insert fails on the unique
        username). */
    method RegisterUser(username: string, password: string, hash: Hasher) returns (ok: bool)
      modifies this
      ensures ok <==> username != "" && password != "" && username !in old(users)
      ensures users == if ok then old(users)[username := hash(password)] else old(users)
      ensures activeUsers == old(activeUsers)
    {
      if username == "" || password == "" {
        return false;
      }
      var h := hash(password);
      if username in users {
        return false;
      }
      users := users[username := h];
      return true;
    }

    /** `loginUser`: adds the name to the active set only when lookup and
        verification both succeed. */
    method LoginUser(username: string, password: string, verify: Verifier) returns (ok: bool)
      modifies this
      ensures ok <==> Accepted(old(users), username, password, verify)
      ensures activeUsers == SessionsAfterLogin(old(activeUsers), users, username, password, verify)
      ensures users == old(users)
    {
      if username !in users {
        return false;
      }
      var storedHash := users[username];
      if !verify(password, storedHash) {
        return false;
      }
      activeUsers := activeUsers + {username};
      return true;
    }

    /** `logoutUser`. */
    method LogoutUser(username: string)
      modifies this
      ensures activeUsers == SessionsAfterLogout(old(activeUsers), username)
      ensures users == old(users)
    {
      activeUsers := activeUsers - {username};
    }

    /** `verifySession`. */
    function VerifySession(username: string): (active: bool)
      reads this
      ensures active <==> username in activeUsers
    {
      username in activeUsers
    }
  }
}

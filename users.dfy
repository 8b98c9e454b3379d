/**
 * The credential store: the users file is an ordered list of
 * (username, password) records, read in full for every check and
 * rewritten in full when a user is added.
 */
module Users {

  datatype User = User(username: string, password: string)

  /** Some stored record carries this username. */
  predicate HasUsername(users: seq<User>, name: string) {
    exists i :: 0 <= i < |users| && users[i].username == name
  }

  /** Some stored record carries exactly this username and this password. */
  predicate Authenticates(users: seq<User>, name: string, password: string) {
    exists i :: 0 <= i < |users| && users[i].username == name && users[i].password == password
  }

  /** No two records share a username. */
  predicate UniqueUsernames(users: seq<User>) {
    forall i, j :: 0 <= i < j < |users| ==> users[i].username != users[j].username
  }

  /** How many records carry this username. */
  function CountUsername(users: seq<User>, name: string): nat
    decreases |users|
  {
    if users == [] then 0
    else (if users[0].username == name then 1 else 0) + CountUsername(users[1..], name)
  }

  /**
   * check_credentials: scan the records in order and stop at the first one
   * matching both fields, case-sensitively.
   */
  method CheckCredentials(users: seq<User>, name: string, password: string) returns (ok: bool)
    ensures ok <==> Authenticates(users, name, password)
  {
    var i := 0;
    while i < |users|
      invariant 0 <= i <= |users|
      invariant forall k :: 0 <= k < i ==> !(users[k].username == name && users[k].password == password)
    {
      if users[i].username == name && users[i].password == password {
        return true;
      }
      i := i + 1;
    }
    return false;
  }

  /** The `any(...)` test of add_user: is the username taken, whatever its password. */
  method UsernameInUse(users: seq<User>, name: string) returns (taken: bool)
    ensures taken <==> HasUsername(users, name)
  {
    taken := false;
    var i := 0;
    while i < |users| && !taken
      invariant 0 <= i <= |users|
      invariant taken <==> exists k :: 0 <= k < i && users[k].username == name
    {
      taken := users[i].username == name;
      i := i + 1;
    }
  }

  /** The users file after add_user(name, password). */
  function AddedUsers(users: seq<User>, name: string, password: string): (r: seq<User>)
    ensures users <= r && |r| <= |users| + 1
    ensures HasUsername(r, name)
  {
    if HasUsername(users, name) then users
    else
      var added := users + [User(name, password)];
      assert added[|users|].username == name;
      added
  }

  /** The users file after a series of add_user calls, in order. */
  function AddedAll(users: seq<User>, requests: seq<User>): (r: seq<User>)
    ensures users <= r
    ensures forall k :: 0 <= k < |requests| ==> HasUsername(r, requests[k].username)
    decreases |requests|
  {
    if requests == [] then users
    else AddedAll(AddedUsers(users, requests[0].username, requests[0].password), requests[1..])
  }

  /** A taken username is refused and the file is left as it was. */
  lemma AddUserRefusesTaken(users: seq<User>, name: string, password: string)
    requires HasUsername(users, name)
    ensures AddedUsers(users, name, password) == users
  {
  }

  /**
   * A fresh username is appended as the last record, every earlier record
   * stays in place, and the new pair then passes the credential check.
   */
  lemma AddUserAppends(users: seq<User>, name: string, password: string)
    requires !HasUsername(users, name)
    ensures AddedUsers(users, name, password) == users + [User(name, password)]
    ensures Authenticates(AddedUsers(users, name, password), name, password)
  {
    var added := AddedUsers(users, name, password);
    assert added[|users|] == User(name, password);
  }

  /** Adding a user never removes a record: earlier logins keep working. */
  lemma AddUserKeepsLogins(users: seq<User>, name: string, password: string, other: string, otherPassword: string)
    requires Authenticates(users, other, otherPassword)
    ensures Authenticates(AddedUsers(users, name, password), other, otherPassword)
  {
    var i :| 0 <= i < |users| && users[i].username == other && users[i].password == otherPassword;
    assert AddedUsers(users, name, password)[i] == users[i];
  }

  /** add_user keeps usernames unique. */
  lemma AddUserKeepsUnique(users: seq<User>, name: string, password: string)
    requires UniqueUsernames(users)
    ensures UniqueUsernames(AddedUsers(users, name, password))
  {
  }

  /** With unique usernames, a stored username occurs exactly once. */
  lemma {:induction false} UniqueCountsOnce(users: seq<User>, name: string)
    requires UniqueUsernames(users) && HasUsername(users, name)
    ensures CountUsername(users, name) == 1
    decreases |users|
  {
    if users[0].username == name {
      NotStoredCountsZero(users[1..], name);
    } else {
      var i :| 0 <= i < |users| && users[i].username == name;
      assert users[1..][i - 1].username == name;
      UniqueCountsOnce(users[1..], name);
    }
  }

  /** A username that is not stored occurs zero times. */
  lemma {:induction false} NotStoredCountsZero(users: seq<User>, name: string)
    requires forall i :: 0 <= i < |users| ==> users[i].username != name
    ensures CountUsername(users, name) == 0
    decreases |users|
  {
    if users != [] {
      NotStoredCountsZero(users[1..], name);
    }
  }

  /**
   * Registering the same username twice: the second call is refused, and
   * when usernames were unique the name is stored exactly once.
   */
  lemma AddUserTwice(users: seq<User>, name: string, password: string, password2: string)
    requires UniqueUsernames(users)
    ensures AddedUsers(AddedUsers(users, name, password), name, password2) == AddedUsers(users, name, password)
    ensures CountUsername(AddedUsers(AddedUsers(users, name, password), name, password2), name) == 1
  {
    var once := AddedUsers(users, name, password);
    if !HasUsername(users, name) {
      AddUserAppends(users, name, password);
    }
    assert HasUsername(once, name);
    AddUserKeepsUnique(users, name, password);
    UniqueCountsOnce(once, name);
  }

  /** With unique usernames only the stored password of a user is accepted. */
  lemma PasswordDetermined(users: seq<User>, name: string, p1: string, p2: string)
    requires UniqueUsernames(users)
    requires Authenticates(users, name, p1) && Authenticates(users, name, p2)
    ensures p1 == p2
  {
  }

  /** A series of additions never removes a record. */
  lemma {:induction false} AddedAllKeepsLogins(users: seq<User>, requests: seq<User>, name: string, password: string)
    requires Authenticates(users, name, password)
    ensures Authenticates(AddedAll(users, requests), name, password)
    decreases |requests|
  {
    if requests != [] {
      var r := requests[0];
      AddUserKeepsLogins(users, r.username, r.password, name, password);
      AddedAllKeepsLogins(AddedUsers(users, r.username, r.password), requests[1..], name, password);
    }
  }

  /**
   * For any series of add_user calls with distinct usernames not yet stored,
   * every registered user then logs in with exactly the password given.
   */
  lemma {:induction false} AddedAllAuthenticates(users: seq<User>, requests: seq<User>)
    requires UniqueUsernames(requests)
    requires forall k :: 0 <= k < |requests| ==> !HasUsername(users, requests[k].username)
    ensures forall k :: 0 <= k < |requests| ==>
      Authenticates(AddedAll(users, requests), requests[k].username, requests[k].password)
    decreases |requests|
  {
    if requests != [] {
      var r := requests[0];
      var next := AddedUsers(users, r.username, r.password);
      AddUserAppends(users, r.username, r.password);
      forall k | 0 <= k < |requests[1..]|
        ensures !HasUsername(next, requests[1..][k].username)
      {
        assert requests[1..][k] == requests[k + 1];
      }
      AddedAllAuthenticates(next, requests[1..]);
      AddedAllKeepsLogins(next, requests[1..], r.username, r.password);
      forall k | 0 <= k < |requests|
        ensures Authenticates(AddedAll(users, requests), requests[k].username, requests[k].password)
      {
        if k > 0 {
          assert requests[k] == requests[1..][k - 1];
        }
      }
    }
  }

  /** Registering "admin"/"pw1" on an empty store: the right password passes, a wrong one fails. */
  lemma RegisterAdminScenario()
    ensures Authenticates(AddedUsers([], "admin", "pw1"), "admin", "pw1")
    ensures !Authenticates(AddedUsers([], "admin", "pw1"), "admin", "wrong")
  {
    AddUserAppends([], "admin", "pw1");
  }
}

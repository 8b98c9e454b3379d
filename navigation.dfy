/**
 * The session controller: two pages, the logged-in username, and the
 * requests a render pass can carry (the login form's submit, or the main
 * menu entry with its form's submit).
 */
module Navigation {
  import opened Users
  import opened Guests

  datatype Page = LoginPage | MainPage

  datatype NavState = NavState(page: Page, username: string)

  /** The fresh session: the login page, nobody logged in. */
  const Start: NavState := NavState(LoginPage, "")

  datatype Request =
    | LoginSubmitted(name: string, password: string)
    | GuestSubmitted(form: GuestForm)
    | ListChosen
    | SearchSubmitted(query: string)
    | DeleteSubmitted(choice: string)
    | ExportChosen
    | UserSubmitted(newName: string, newPassword: string)
    | LogoutChosen

  /** The page and username after one request, given the stored users. */
  function Next(s: NavState, users: seq<User>, r: Request): (t: NavState)
    ensures NavInvariant(s, users) ==> NavInvariant(t, users)
    ensures t != s ==>
      || (s.page == LoginPage && r.LoginSubmitted? && Authenticates(users, r.name, r.password)
          && t == NavState(MainPage, r.name))
      || (s.page == MainPage && r.LogoutChosen? && t == Start)
  {
    match r
    case LoginSubmitted(name, password) =>
      if s.page == LoginPage && Authenticates(users, name, password) then NavState(MainPage, name) else s
    case LogoutChosen =>
      if s.page == MainPage then Start else s
    case _ => s
  }

  /** Logged out means no username; logged in means a stored username. */
  predicate NavInvariant(s: NavState, users: seq<User>) {
    && (s.page == LoginPage ==> s.username == "")
    && (s.page == MainPage ==> HasUsername(users, s.username))
  }

  /** The fresh session satisfies the invariant whatever the users file holds. */
  lemma StartIsLoggedOut(users: seq<User>)
    ensures NavInvariant(Start, users)
  {
  }

  /** The invariant survives the users file growing (records are only ever appended). */
  lemma InvariantSurvivesGrowth(s: NavState, users: seq<User>, users': seq<User>)
    requires NavInvariant(s, users) && users <= users'
    ensures NavInvariant(s, users')
  {
    if s.page == MainPage {
      var i :| 0 <= i < |users| && users[i].username == s.username;
      assert users'[i] == users[i];
    }
  }

  /** The invariant survives every request, whatever users are appended meanwhile. */
  lemma NextKeepsInvariant(s: NavState, users: seq<User>, users': seq<User>, r: Request)
    requires NavInvariant(s, users) && users <= users'
    ensures NavInvariant(Next(s, users, r), users')
  {
    InvariantSurvivesGrowth(Next(s, users, r), users, users');
  }

  /** On the login page a submitted login opens the main page exactly when it passes the credential check. */
  lemma LoginIff(s: NavState, users: seq<User>, name: string, password: string)
    requires s.page == LoginPage
    ensures Next(s, users, LoginSubmitted(name, password)).page == MainPage <==> Authenticates(users, name, password)
    ensures Authenticates(users, name, password) ==> Next(s, users, LoginSubmitted(name, password)) == NavState(MainPage, name)
  {
  }

  /** Logging out from the main page returns to the fresh session. */
  lemma LogoutResets(s: NavState, users: seq<User>)
    requires s.page == MainPage
    ensures Next(s, users, LogoutChosen) == Start
  {
  }
}

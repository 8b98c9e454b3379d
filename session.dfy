/**
 * One session of the application: the users file, the guest list held in
 * the session (mirrored to the guests file after each change), the current
 * page and the logged-in username. Each menu branch of the main page is a
 * method; Handle routes a request to the page it belongs to.
 */
module Session {
  import opened Wrappers
  import opened Text
  import opened Users
  import opened Guests
  import opened Labels
  import opened Navigation

  /** What the page shows after a request (the success, warning and info messages, the tables). */
  datatype Outcome =
    | LoggedIn
    | WrongCredentials
    | GuestAdded
    | GuestTable(rows: seq<Guest>)
    | NoGuests
    | SearchSkipped
    | SearchResults(rows: seq<Guest>)
    | NoMatch
    | GuestDeleted(nom: string)
    | NothingToDelete
    | UnpackFailed(parts: nat)
    | ExportRows(rows: seq<Guest>)
    | NothingToExport
    | UserAdded
    | UserExists
    | LoggedOut
    | Ignored

  /** The request belongs to the page: the login form on the login page, the menu on the main page. */
  predicate Owns(page: Page, r: Request) {
    (page == LoginPage) == r.LoginSubmitted?
  }

  /**
   * The users file and the guest list after one request on a page: a
   * submitted guest is appended, a delete whose list is non-empty and whose
   * label unpacks removes the parsed pair, a submitted user goes through
   * add_user; every other request, and everything on the login page,
   * leaves both unchanged.
   */
  function Effect(users: seq<User>, invites: seq<Guest>, page: Page, r: Request): (e: (seq<User>, seq<Guest>))
    ensures users <= e.0 && |e.0| <= |users| + 1
    ensures !Owns(page, r) || page == LoginPage ==> e == (users, invites)
    ensures e.0 != users ==> r.UserSubmitted? && e.0 == users + [User(r.newName, r.newPassword)]
    ensures e.1 != invites ==> r.GuestSubmitted? || r.DeleteSubmitted?
  {
    if page == LoginPage then (users, invites)
    else
      match r
      case GuestSubmitted(form) => (users, invites + [MakeGuest(form)])
      case DeleteSubmitted(choice) =>
        if invites != [] && ParseLabel(choice).Ok? then
          (users, Delete(invites, ParseLabel(choice).value.0, ParseLabel(choice).value.1))
        else (users, invites)
      case UserSubmitted(name, password) => (AddedUsers(users, name, password), invites)
      case _ => (users, invites)
  }

  class App {
    var users: seq<User>
    var invites: seq<Guest>
    var page: Page
    var username: string

    function Nav(): NavState
      reads this
    {
      NavState(page, username)
    }

    ghost predicate Valid()
      reads this
    {
      NavInvariant(Nav(), users)
    }

    /**
     * Session start: the login page with no username; the guest list is the
     * guests file, or empty when that file does not exist (None).
     */
    constructor (storedUsers: seq<User>, storedInvites: Option<seq<Guest>>)
      ensures Valid()
      ensures Nav() == Start
      ensures users == storedUsers
      ensures invites == storedInvites.GetOr([])
    {
      users := storedUsers;
      page := LoginPage;
      username := "";
      invites := storedInvites.GetOr([]);
      StartIsLoggedOut(storedUsers);
    }

    /** The login form's submit: on a passing check record the user and go to the main page. */
    method Login(name: string, password: string) returns (o: Outcome)
      requires Valid() && page == LoginPage
      modifies this
      ensures Valid()
      ensures Nav() == Next(old(Nav()), users, LoginSubmitted(name, password))
      ensures users == old(users) && invites == old(invites)
      ensures o == if Authenticates(users, name, password) then LoggedIn else WrongCredentials
    {
      LoginIff(Nav(), users, name, password);
      var ok := CheckCredentials(users, name, password);
      if ok {
        username := name;
        page := MainPage;
        o := LoggedIn;
      } else {
        o := WrongCredentials;
      }
    }

    /** "Ajouter un invité": append the form's record at the end of the list. */
    method AddGuest(form: GuestForm) returns (o: Outcome)
      requires Valid() && page == MainPage
      modifies this
      ensures Valid()
      ensures invites == old(invites) + [MakeGuest(form)]
      ensures users == old(users) && Nav() == old(Nav())
      ensures o == GuestAdded
    {
      invites := invites + [MakeGuest(form)];
      o := GuestAdded;
    }

    /** "Afficher les invités": the whole list, or the "no guests" notice. */
    method ListGuests() returns (o: Outcome)
      ensures invites == [] ==> o == NoGuests
      ensures invites != [] ==> o == GuestTable(invites)
    {
      if invites != [] {
        o := GuestTable(invites);
      } else {
        o := NoGuests;
      }
    }

    /**
     * "Rechercher un invité": an empty query does nothing; otherwise the
     * matching guests in list order, or the "none found" warning.
     */
    method SearchGuests(query: string) returns (o: Outcome)
      ensures query == [] <==> o == SearchSkipped
      ensures query != [] && Search(invites, query) != [] ==> o == SearchResults(Search(invites, query))
      ensures query != [] && Search(invites, query) == [] ==> o == NoMatch
      ensures o == NoMatch <==> query != [] && forall i :: 0 <= i < |invites| ==> !Matches(invites[i], query)
    {
      SearchEmpty(invites, query);
      if query == [] {
        o := SearchSkipped;
      } else {
        var results := Search(invites, query);
        if results != [] {
          o := SearchResults(results);
        } else {
          o := NoMatch;
        }
      }
    }

    /**
     * "Supprimer un invité": parse the chosen label; when the unpack fails
     * nothing changes; otherwise every record with the parsed pair goes.
     */
    method DeleteGuest(choice: string) returns (o: Outcome)
      requires Valid() && page == MainPage
      modifies this
      ensures Valid()
      ensures users == old(users) && Nav() == old(Nav())
      ensures old(invites) == [] ==> o == NothingToDelete && invites == old(invites)
      ensures old(invites) != [] && ParseLabel(choice).Err? ==>
        o == UnpackFailed(ParseLabel(choice).error.parts) && invites == old(invites)
      ensures old(invites) != [] && ParseLabel(choice).Ok? ==>
        var (nom, date) := ParseLabel(choice).value;
        o == GuestDeleted(nom) && invites == Delete(old(invites), nom, date)
    {
      if invites == [] {
        o := NothingToDelete;
        return;
      }
      match ParseLabel(choice)
      case Err(e) =>
        o := UnpackFailed(e.parts);
      case Ok((nom, date)) =>
        invites := Delete(invites, nom, date);
        o := GuestDeleted(nom);
    }

    /** "Exporter en Excel": the rows of the sheet, or the "nothing to export" notice. */
    method ExportGuests() returns (o: Outcome)
      ensures invites == [] ==> o == NothingToExport
      ensures invites != [] ==> o == ExportRows(invites)
    {
      if invites != [] {
        o := ExportRows(invites);
      } else {
        o := NothingToExport;
      }
    }

    /** "Ajouter un utilisateur": refuse a taken username, else append the record. */
    method AddUser(name: string, password: string) returns (o: Outcome)
      requires Valid() && page == MainPage
      modifies this
      ensures Valid()
      ensures users == AddedUsers(old(users), name, password)
      ensures o == if HasUsername(old(users), name) then UserExists else UserAdded
      ensures UniqueUsernames(old(users)) ==> UniqueUsernames(users)
      ensures invites == old(invites) && Nav() == old(Nav())
    {
      var taken := UsernameInUse(users, name);
      if taken {
        o := UserExists;
      } else {
        InvariantSurvivesGrowth(Nav(), users, users + [User(name, password)]);
        users := users + [User(name, password)];
        o := UserAdded;
      }
      if UniqueUsernames(old(users)) {
        AddUserKeepsUnique(old(users), name, password);
      }
    }

    /** "Se déconnecter": back to the login page with no username. */
    method Logout() returns (o: Outcome)
      requires Valid() && page == MainPage
      modifies this
      ensures Valid()
      ensures Nav() == Start
      ensures users == old(users) && invites == old(invites)
      ensures o == LoggedOut
    {
      page := LoginPage;
      username := "";
      o := LoggedOut;
    }

    /**
     * One render pass: the login page handles only its form, the main page
     * only its menu. Page and username follow Next, records are only added
     * to the users file, and the login page never touches either file.
     */
    method Handle(r: Request) returns (o: Outcome)
      requires Valid()
      modifies this
      ensures Valid()
      ensures Nav() == Next(old(Nav()), old(users), r)
      ensures (users, invites) == Effect(old(users), old(invites), old(page), r)
      ensures o == Ignored <==> !Owns(old(page), r)
    {
      if page == LoginPage {
        match r
        case LoginSubmitted(name, password) =>
          o := Login(name, password);
        case _ =>
          o := Ignored;
      } else {
        match r
        case LoginSubmitted(_, _) =>
          o := Ignored;
        case GuestSubmitted(form) =>
          o := AddGuest(form);
        case ListChosen =>
          o := ListGuests();
        case SearchSubmitted(query) =>
          o := SearchGuests(query);
        case DeleteSubmitted(choice) =>
          o := DeleteGuest(choice);
        case ExportChosen =>
          o := ExportGuests();
        case UserSubmitted(name, password) =>
          o := AddUser(name, password);
        case LogoutChosen =>
          o := Logout();
      }
    }
  }

  /**
   * A login walk-through: a wrong password is refused, the right one opens
   * the main page, and logging out returns to the fresh session.
   */
  method LoginScenario() returns (wrong: Outcome, right: Outcome, out: NavState)
    ensures wrong == WrongCredentials && right == LoggedIn && out == Start
  {
    var app := new App([User("admin", "pw1")], None);
    assert app.users[0] == User("admin", "pw1");
    wrong := app.Login("admin", "wrong");
    right := app.Login("admin", "pw1");
    assert app.page == MainPage && app.username == "admin";
    var o := app.Logout();
    out := app.Nav();
  }

  /**
   * A guest walk-through on the main page: the guest "Ali Ben" is added,
   * listed, found by the query "ali" and deleted through its label.
   */
  method GuestScenario(app: App, date: CalendarDate) returns (found: Outcome, deleted: Outcome)
    requires app.Valid() && app.page == MainPage && app.invites == []
    modifies app
    ensures found == SearchResults([MakeGuest(GuestForm("Ali", "Ben", "", "", date, "", "", "", ""))])
    ensures deleted == GuestDeleted("Ali")
    ensures app.invites == [] && app.Valid() && app.page == MainPage
  {
    var form := GuestForm("Ali", "Ben", "", "", date, "", "", "", "");
    var g := MakeGuest(form);
    var o := app.AddGuest(form);
    assert app.invites == [g];
    o := app.ListGuests();
    assert o == GuestTable([g]);

    SearchAliScenario(g);
    found := app.SearchGuests("ali");

    assert SafeNom("Ali") by {
      forall j: nat
        ensures !OccursAt("Ali", Separator, j)
      {
        if j + 2 <= 3 {
          assert "Ali"[j..j + 2][0] == "Ali"[j] != ' ';
        }
      }
    }
    FormGuestLabelRoundTrip(form);
    DeletePresent([g], g.nom, g.dateInvitation, 0);
    deleted := app.DeleteGuest(LabelOf(g));
    assert app.invites == [];
    o := app.ListGuests();
    assert o == NoGuests;
  }
}

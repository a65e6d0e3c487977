/** The sign-in page (src/pages/Authentication/Login.tsx). A signed-in user is
    sent to the dashboard; otherwise the form signs in with email and
    password, reads the user's document and lets in only an active admin or
    super admin. Signing in and reading the document are I/O: `Finish`
    receives their combined outcome. */
module Login {
  import opened Wrappers

  const UserNotFound := "User not found."
  const NoPermission := "You do not have permission to access this application."
  const WrongCredentials := "Incorrect username or password."

  /** The user kept by the app and written to local storage as `{ id, role }`. */
  datatype SessionUser = SessionUser(id: string, role: string)

  /** What signing in and reading the user document produced. */
  datatype SignInOutcome =
    | Threw                                        // either call rejected
    | NoUserDoc(uid: string)                       // signed in, no user document
    | Found(uid: string, role: string, isActive: bool)

  predicate AdminRole(role: string) {
    role == "super.admin" || role == "admin"
  }

  datatype Decision = Grant(user: SessionUser) | Refuse(message: string)

  /** Access is granted exactly to an active admin or super admin, as
      `{ id, role }`; every refusal names its cause. */
  function Decide(o: SignInOutcome): (r: Decision)
    ensures r.Grant? <==> o.Found? && AdminRole(o.role) && o.isActive
    ensures r.Grant? ==> r.user == SessionUser(o.uid, o.role)
    ensures o.Threw? ==> r == Refuse(WrongCredentials)
    ensures o.NoUserDoc? ==> r == Refuse(UserNotFound)
    ensures o.Found? && !(AdminRole(o.role) && o.isActive) ==> r == Refuse(NoPermission)
  {
    match o
    case Threw => Refuse(WrongCredentials)
    case NoUserDoc(_) => Refuse(UserNotFound)
    case Found(uid, role, isActive) =>
      if AdminRole(role) && isActive then Grant(SessionUser(uid, role)) else Refuse(NoPermission)
  }

  /** The three messages differ, so the message shown tells the cause apart. */
  lemma {:induction false} RefusalIdentifiesCause(o: SignInOutcome, o': SignInOutcome)
    requires Decide(o).Refuse? && Decide(o) == Decide(o')
    ensures o.Threw? <==> o'.Threw?
    ensures o.NoUserDoc? <==> o'.NoUserDoc?
    ensures o.Found? <==> o'.Found?
  {
    assert |UserNotFound| < |WrongCredentials| < |NoPermission|;
  }

  class LoginPage {
    /** The `user` prop shared with the app, set through `setUser`. */
    var user: Option<SessionUser>
    /** The `'user'` entry of local storage. */
    var stored: Option<SessionUser>
    var email: string
    var password: string
    var error: string
    var loading: bool
    /** The route last navigated to. */
    var navigatedTo: Option<string>

    constructor (user: Option<SessionUser>, stored: Option<SessionUser>)
      ensures this.user == user && this.stored == stored
      ensures email == "" && password == "" && error == "" && !loading && navigatedTo.None?
    {
      this.user := user;
      this.stored := stored;
      email, password, error := "", "", "";
      loading := false;
      navigatedTo := None;
    }

    /** A signed-in user is redirected to the dashboard instead of seeing the form. */
    function Redirect(): (r: Option<string>)
      reads this
      ensures r.Some? <==> user.Some?
      ensures r.Some? ==> r.value == "/"
    {
      if user.Some? then Some("/") else None
    }

    method HandleEmailChange(value: string)
      modifies this
      ensures email == value
      ensures password == old(password) && error == old(error) && loading == old(loading)
      ensures user == old(user) && stored == old(stored) && navigatedTo == old(navigatedTo)
    {
      email := value;
    }

    method HandlePasswordChange(value: string)
      modifies this
      ensures password == value
      ensures email == old(email) && error == old(error) && loading == old(loading)
      ensures user == old(user) && stored == old(stored) && navigatedTo == old(navigatedTo)
    {
      password := value;
    }

    /** Submitting the form: loading is on while the calls are pending. */
    method BeginSignIn()
      modifies this
      ensures loading
      ensures email == old(email) && password == old(password) && error == old(error)
      ensures user == old(user) && stored == old(stored) && navigatedTo == old(navigatedTo)
    {
      loading := true;
    }

    /** The rest of `handleSignIn` once the outcome is known. A granted user is
        set, stored and sent to the dashboard, and an earlier message stays;
        a refusal shows its message and sets no user. Loading ends on every
        path. */
    method FinishSignIn(o: SignInOutcome)
      modifies this
      ensures !loading
      ensures email == old(email) && password == old(password)
      ensures Decide(o).Grant? ==>
        && user == Some(Decide(o).user) && stored == Some(Decide(o).user)
        && navigatedTo == Some("/") && error == old(error)
      ensures Decide(o).Refuse? ==>
        && error == Decide(o).message
        && user == old(user) && stored == old(stored) && navigatedTo == old(navigatedTo)
    {
      match o {
        case Threw =>
          error := WrongCredentials;
        case NoUserDoc(_) =>
          error := UserNotFound;
        case Found(userId, userRole, userStatus) =>
          if userRole == "super.admin" || userRole == "admin" {
            if userStatus {
              var userData := SessionUser(userId, userRole);
              user := Some(userData);
              stored := Some(userData);
              navigatedTo := Some("/");
            } else {
              error := NoPermission;
            }
          } else {
            error := NoPermission;
          }
      }
      loading := false;
    }
  }
}

/**
 * The sign-up page (frontend/pages/register.js): the field checks, in their
 * order, and what a successful sign-up leaves in local storage. The two API
 * calls it makes are given as their replies.
 */
module RegisterPage {
  import opened Outcomes
  import Json
  import Browser
  import Api
  import Chars

  const ALL_REQUIRED: string := "All fields are required"
  const PASSWORD_TOO_SHORT: string := "Password must be at least 6 characters"
  const REGISTRATION_FAILED: string := "Registration failed"
  const MIN_PASSWORD: nat := 6

  /** The first check the fields fail, on the text as typed; `None` when they pass. */
  function Validate(email: string, password: string, fullName: string): (r: Option<string>)
    ensures r == Some(ALL_REQUIRED) <==> email == "" || password == "" || fullName == ""
    ensures r == Some(PASSWORD_TOO_SHORT) <==> email != "" && fullName != "" && 0 < |password| < MIN_PASSWORD
    ensures r.None? <==> email != "" && fullName != "" && |password| >= MIN_PASSWORD
  {
    if email == "" || password == "" || fullName == "" then Some(ALL_REQUIRED)
    else if |password| < MIN_PASSWORD then Some(PASSWORD_TOO_SHORT)
    else None
  }

  /** The fields of the register response the page keeps. */
  datatype UserBody = UserBody(id: int, email: string, fullName: Option<string>)

  datatype Request = RegisterRequest(email: string, password: string, fullName: string) | LoginRequest(email: string, password: string)

  function UserRecord(u: UserBody): seq<Json.Member> {
    [("id", Json.Num(u.id)), ("email", Json.Str(u.email)),
     ("full_name", match u.fullName case Some(n) => Json.Str(n) case None => Json.Null)]
  }

  /** `JSON.stringify({id, email, full_name})` of the register response. */
  function UserText(u: UserBody): string {
    Json.Stringify(Json.Object(UserRecord(u)))
  }

  /** The stored user record reads back with the id, email and full name of the response. */
  lemma StoredUserReadsBack(u: UserBody)
    ensures Json.Parse(UserText(u)) == Some(Json.Object(UserRecord(u)))
    ensures Json.Lookup(UserRecord(u), "id") == Some(Json.Num(u.id))
    ensures Json.Lookup(UserRecord(u), "email") == Some(Json.Str(u.email))
    ensures Json.Lookup(UserRecord(u), "full_name") == if u.fullName.Some? then Some(Json.Str(u.fullName.value)) else Some(Json.Null)
  {
    assert !Json.IsIndexKey("id") by { assert !Chars.IsDigit("id"[0]); }
    assert !Json.IsIndexKey("email") by { assert !Chars.IsDigit("email"[0]); }
    assert !Json.IsIndexKey("full_name") by { assert !Chars.IsDigit("full_name"[0]); }
    var ms := UserRecord(u);
    assert ms[1..][1..] == [ms[2]];
    assert Json.Lookup(ms, "full_name") == Json.Lookup([ms[2]], "full_name");
    Json.StringifyRoundTrip(Json.Object(ms));
  }

  class RegisterForm {
    const storage: Browser.LocalStorage
    var email: string
    var password: string
    var fullName: string
    var error: Option<string>
    var loading: bool

    constructor (storage: Browser.LocalStorage)
      ensures this.storage == storage
      ensures email == "" && password == "" && fullName == "" && error == None && !loading
    {
      this.storage := storage;
      email, password, fullName := "", "", "";
      error := None;
      loading := false;
    }

    /**
     * `handleSubmit`. Failed checks show their message and send nothing; the
     * login is sent only after a successful registration; storage is written
     * only when both succeed; the loading flag is always cleared.
     */
    method HandleSubmit(registered: Api.Reply<UserBody>, loggedIn: Api.Reply<string>)
      returns (sent: seq<Request>, navigated: bool)
      modifies this, storage
      ensures email == old(email) && password == old(password) && fullName == old(fullName) && !loading
      ensures Validate(email, password, fullName).Some? ==>
                && error == Validate(email, password, fullName) && sent == [] && !navigated
                && storage.items == old(storage.items)
      ensures Validate(email, password, fullName).None? ==>
                && |sent| >= 1 && sent[0] == RegisterRequest(email, password, fullName)
                && (registered.Failed? ==>
                      && sent == [sent[0]] && !navigated && storage.items == old(storage.items)
                      && error == Some(Api.ErrorMessage(registered.detail, REGISTRATION_FAILED)))
                && (registered.Ok? ==> sent == [sent[0], LoginRequest(email, password)])
                && (registered.Ok? && loggedIn.Failed? ==>
                      && !navigated && storage.items == old(storage.items)
                      && error == Some(Api.ErrorMessage(loggedIn.detail, REGISTRATION_FAILED)))
                && (registered.Ok? && loggedIn.Ok? ==>
                      && navigated && error == None
                      && storage.items == old(storage.items)["token" := loggedIn.body]["user" := UserText(registered.body)])
    {
      error := None;
      loading := true;
      var problem := Validate(email, password, fullName);
      if problem.Some? {
        error := problem;
        loading := false;
        return [], false;
      }
      sent := [RegisterRequest(email, password, fullName)];
      navigated := false;
      match registered {
        case Failed(detail) =>
          error := Some(Api.ErrorMessage(detail, REGISTRATION_FAILED));
        case Ok(user) =>
          sent := sent + [LoginRequest(email, password)];
          match loggedIn {
            case Failed(detail) =>
              error := Some(Api.ErrorMessage(detail, REGISTRATION_FAILED));
            case Ok(token) =>
              storage.SetItem("token", token);
              storage.SetItem("user", UserText(user));
              navigated := true;
          }
      }
      loading := false;
    }
  }
}

/**
 * The request handlers of the notes service (backend/app/main.py) as methods
 * on one in-memory store holding the `users` and `notes` tables. Requests
 * are sequential method calls; every authenticated handler first runs the
 * gate `get_current_user` on the bearer token it is given.
 */
module NotesApi {
  import opened Outcomes
  import opened Models
  import Auth
  import Deps
  import SqlLike
  import Chars

  datatype HttpError = HttpError(status: int, detail: string)

  const EMAIL_TAKEN: HttpError := HttpError(400, "Email already registered")
  const BAD_CREDENTIALS: HttpError := HttpError(401, "Incorrect credentials")
  const NOTE_NOT_FOUND: HttpError := HttpError(404, "Note not found")

  /** The 401 response of a failed gate guard. */
  function Unauthorized(f: Deps.GateFailure): HttpError {
    HttpError(Deps.HTTP_UNAUTHORIZED, Deps.Detail(f))
  }

  /** The `Token` schema: `{'access_token': ..., 'token_type': 'bearer'}`. */
  datatype TokenOut = TokenOut(accessToken: Auth.Token, tokenType: string)

  /** The body `{'ok': True}` of a successful delete. */
  datatype Deleted = Deleted(ok: bool)

  /** The registration check `User.email == email` finds a row. */
  predicate EmailTaken(users: map<int, User>, email: string) {
    exists id | id in users :: users[id].email == email
  }

  /** The claims `login` signs: `{'sub': str(user.id)}`. */
  function LoginClaims(id: int): Auth.Claims {
    map["sub" := Auth.Str(Chars.IntToDecimal(id))]
  }

  /** Whether `list_notes` keeps a note with this title: no filter for an absent or empty `q`. */
  predicate TitleSelected(q: Option<string>, title: string) {
    match q
    case None => true
    case Some(text) => text == "" || SqlLike.ILike(title, SqlLike.ContainsPattern(text))
  }

  /** The single lookup `Note.id == note_id, Note.owner_id == current_user.id`. */
  function FindOwned(notes: map<int, Note>, noteId: int, ownerId: int): (r: Option<Note>)
    ensures r.Some? <==> noteId in notes && notes[noteId].ownerId == ownerId
    ensures r.Some? ==> r.value == notes[noteId]
  {
    if noteId in notes && notes[noteId].ownerId == ownerId then Some(notes[noteId]) else None
  }

  /** The caller's own notes: everything an owner-scoped lookup can see. */
  function OwnedBy(notes: map<int, Note>, ownerId: int): (r: map<int, Note>)
    ensures forall id :: id in r <==> id in notes && notes[id].ownerId == ownerId
    ensures forall id :: id in r ==> r[id] == notes[id]
  {
    map id | id in notes && notes[id].ownerId == ownerId :: notes[id]
  }

  /**
   * A lookup sees only the caller's notes: its result on the whole table is its
   * result on the caller's part, so a note of another user and a missing id
   * give the same answer.
   */
  lemma LookupSeesOnlyOwnNotes(notes: map<int, Note>, noteId: int, ownerId: int)
    ensures FindOwned(notes, noteId, ownerId) == FindOwned(OwnedBy(notes, ownerId), noteId, ownerId)
    ensures noteId in notes && notes[noteId].ownerId != ownerId ==>
              FindOwned(notes, noteId, ownerId) == FindOwned(notes - {noteId}, noteId, ownerId)
  {
  }

  /** Note `n` after `update_note` assigns title and content; `updated_at` moves only if the row changed. */
  function Updated(n: Note, title: string, content: string, now: int): (r: Note)
    ensures r.id == n.id && r.ownerId == n.ownerId && r.createdAt == n.createdAt
    ensures r.title == title && r.content == content
    ensures r.updatedAt == (if title == n.title && content == n.content then n.updatedAt else now)
  {
    n.(title := title, content := content,
       updatedAt := if title == n.title && content == n.content then n.updatedAt else now)
  }

  /**
   * The primary key SQLite gives a row inserted without one into a table with
   * an `INTEGER PRIMARY KEY` (no `AUTOINCREMENT`): one more than the largest
   * key present, and 1 in an empty table. A key freed by deleting the row
   * with the largest key is therefore handed out again.
   */
  predicate IsNextRowId(keys: set<int>, id: int) {
    && (keys == {} ==> id == 1)
    && (keys != {} ==> id - 1 in keys && forall k | k in keys :: k < id)
  }

  /** The next row id is determined by the keys present. */
  lemma NextRowIdUnique(keys: set<int>, a: int, b: int)
    requires IsNextRowId(keys, a) && IsNextRowId(keys, b)
    ensures a == b
  {
  }

  /**
   * The largest key of a table whose keys lie in `1..bound`, 0 when it is
   * empty: the scan down from `bound` that finds the new last row after a
   * delete.
   */
  method LargestKey<V>(table: map<int, V>, bound: nat) returns (largest: nat)
    requires forall k | k in table :: 0 < k <= bound
    ensures largest == 0 || largest in table
    ensures largest <= bound && forall k | k in table :: k <= largest
    ensures largest == 0 <==> table == map[]
  {
    largest := bound;
    while largest > 0 && largest !in table
      invariant largest <= bound
      invariant forall k | k in table :: k <= largest
      decreases largest
    {
      largest := largest - 1;
    }
  }

  /** A largest key, or 0 for an empty table, determines the next row id. */
  lemma NextAfterLargest(keys: set<int>, largest: int)
    requires forall k | k in keys :: 0 < k <= largest
    requires largest == 0 || largest in keys
    ensures IsNextRowId(keys, largest + 1)
  {
    if largest == 0 {
      assert forall k :: k !in keys;
    }
  }

  /** The `users` table: rows keyed by their ids, positive keys up to `largest`, and unique emails. */
  ghost predicate UsersTable(users: map<int, User>, largest: int) {
    && KeyedById(users)
    && (forall id :: id in users ==> 0 < id <= largest)
    && (largest == 0 || largest in users)
    && (forall a, b :: a in users && b in users && users[a].email == users[b].email ==> a == b)
  }

  /** The `notes` table: rows keyed by their ids, positive keys up to `largest`, and every owner a user. */
  ghost predicate NotesTable(notes: map<int, Note>, users: map<int, User>, largest: int) {
    && (forall id :: id in notes ==> notes[id].id == id && 0 < id <= largest)
    && (largest == 0 || largest in notes)
    && (forall id :: id in notes ==> notes[id].ownerId in users)
  }

  /** A note inserted under the next row id keeps the table valid, with its id as the new largest key. */
  lemma NoteInserted(notes: map<int, Note>, users: map<int, User>, largest: int, n: Note)
    requires NotesTable(notes, users, largest)
    requires n.id == largest + 1 && n.ownerId in users
    ensures NotesTable(notes[n.id := n], users, n.id)
    ensures IsNextRowId(notes.Keys, n.id) && n.id !in notes
  {
    NextAfterLargest(notes.Keys, largest);
  }

  class NotesService {
    /** The SHA-256 the service hashes passwords with. */
    const sha256: Auth.Sha256
    /** The `users` table by primary key. */
    var users: map<int, User>
    /** The `notes` table by primary key. */
    var notes: map<int, Note>
    /** The largest primary key in each table, 0 while it is empty. */
    var largestUserId: nat
    var largestNoteId: nat

    ghost predicate Valid()
      reads this
    {
      && UsersTable(users, largestUserId)
      && NotesTable(notes, users, largestNoteId)
    }

    constructor (sha256: Auth.Sha256)
      ensures Valid()
      ensures this.sha256 == sha256 && users == map[] && notes == map[]
    {
      this.sha256 := sha256;
      users, notes := map[], map[];
      largestUserId, largestNoteId := 0, 0;
    }

    /** The gate over the current user table. */
    function Authenticate(token: Auth.Token, now: int): Result<User, Deps.GateFailure>
      reads this
    {
      Deps.GetCurrentUser(token, users, now)
    }

    /** Some user with this email has a digest this password verifies against. */
    ghost predicate CredentialsMatch(email: string, password: string)
      reads this
    {
      exists id :: id in users && users[id].email == email && Auth.VerifyPassword(sha256, password, users[id].hashedPassword)
    }

    /** `POST /auth/register`. */
    method Register(email: string, password: string, fullName: Option<string>) returns (r: Result<UserOut, HttpError>)
      requires Valid()
      modifies this
      ensures Valid()
      ensures notes == old(notes)
      ensures old(EmailTaken(users, email)) ==> r == Failure(EMAIL_TAKEN) && users == old(users)
      ensures !old(EmailTaken(users, email)) ==>
                && r.Success? && IsNextRowId(old(users).Keys, r.value.id) && r.value.id !in old(users)
                && users == old(users)[r.value.id := User(r.value.id, email, Auth.GetPasswordHash(sha256, password), fullName)]
                && r == Success(UserOut(r.value.id, email, fullName))
    {
      if EmailTaken(users, email) {
        r := Failure(EMAIL_TAKEN);
        return;
      }
      var hashed := Auth.GetPasswordHash(sha256, password);
      NextAfterLargest(users.Keys, largestUserId);
      var id := largestUserId + 1;
      largestUserId := id;
      users := users[id := User(id, email, hashed, fullName)];
      r := Success(UserOut(id, email, fullName));
    }

    /**
     * `POST /auth/login` at instant `now`: one answer for an unknown email and
     * for a wrong password, and otherwise a bearer token whose `sub` is the
     * user's id in decimal.
     */
    method Login(email: string, password: string, now: int) returns (r: Result<TokenOut, HttpError>)
      requires Valid()
      ensures r.Failure? <==> !CredentialsMatch(email, password)
      ensures r.Failure? ==> r.error == BAD_CREDENTIALS
      ensures r.Success? ==>
                exists id :: id in users && users[id].email == email
                          && r.value == TokenOut(Auth.CreateAccessToken(LoginClaims(id), None, now), "bearer")
    {
      if !EmailTaken(users, email) {
        r := Failure(BAD_CREDENTIALS);
        return;
      }
      var id :| id in users && users[id].email == email;
      if !Auth.VerifyPassword(sha256, password, users[id].hashedPassword) {
        r := Failure(BAD_CREDENTIALS);
        return;
      }
      r := Success(TokenOut(Auth.CreateAccessToken(LoginClaims(users[id].id), None, now), "bearer"));
    }

    /** `GET /users/me`: the authenticated user, without the digest. */
    method ReadMe(token: Auth.Token, now: int) returns (r: Result<UserOut, HttpError>)
      requires Valid()
      ensures Authenticate(token, now).Failure? ==> r == Failure(Unauthorized(Authenticate(token, now).error))
      ensures Authenticate(token, now).Success? ==> r == Success(ToUserOut(Authenticate(token, now).value))
    {
      var auth := Deps.GetCurrentUser(token, users, now);
      if auth.Failure? {
        r := Failure(Unauthorized(auth.error));
        return;
      }
      r := Success(ToUserOut(auth.value));
    }

    /** `POST /notes`: a new note owned by the caller, whatever else the request holds. */
    method CreateNote(token: Auth.Token, now: int, title: string, content: string) returns (r: Result<NoteOut, HttpError>)
      requires Valid()
      modifies this
      ensures Valid()
      ensures users == old(users)
      ensures old(Authenticate(token, now)).Failure? ==>
                r == Failure(Unauthorized(old(Authenticate(token, now)).error)) && notes == old(notes)
      ensures old(Authenticate(token, now)).Success? ==>
                var owner := old(Authenticate(token, now)).value.id;
                && r.Success? && IsNextRowId(old(notes).Keys, r.value.id) && r.value.id !in old(notes) && owner in users
                && notes == old(notes)[r.value.id := Note(r.value.id, title, content, owner, now, now)]
                && r == Success(NoteOut(r.value.id, title, content, owner))
    {
      var auth := Deps.GetCurrentUser(token, users, now);
      if auth.Failure? {
        r := Failure(Unauthorized(auth.error));
        return;
      }
      var owner := auth.value.id;
      assert owner in users;
      var id := largestNoteId + 1;
      var n := Note(id, title, content, owner, now, now);
      NoteInserted(notes, users, largestNoteId, n);
      notes := notes[id := n];
      largestNoteId := id;
      r := Success(ToNoteOut(n));
    }

    /**
     * `GET /notes?q=`: exactly the caller's notes, and of those only the ones
     * whose title matches `%q%` when `q` is given and non-empty. The order of
     * the rows is not specified.
     */
    method ListNotes(token: Auth.Token, now: int, q: Option<string>) returns (r: Result<set<Note>, HttpError>)
      requires Valid()
      ensures Authenticate(token, now).Failure? ==> r == Failure(Unauthorized(Authenticate(token, now).error))
      ensures Authenticate(token, now).Success? ==>
                && r.Success?
                && (forall n | n in r.value ::
                      n.id in notes && notes[n.id] == n
                      && n.ownerId == Authenticate(token, now).value.id && TitleSelected(q, n.title))
                && (forall id | id in notes ::
                      notes[id].ownerId == Authenticate(token, now).value.id && TitleSelected(q, notes[id].title)
                      ==> notes[id] in r.value)
    {
      var auth := Deps.GetCurrentUser(token, users, now);
      if auth.Failure? {
        r := Failure(Unauthorized(auth.error));
        return;
      }
      var owner := auth.value.id;
      var rows := set id | id in notes && notes[id].ownerId == owner && TitleSelected(q, notes[id].title) :: notes[id];
      r := Success(rows);
    }

    /** `GET /notes/{id}`: the caller's note with this id, or 404 for a missing note and for someone else's alike. */
    method GetNote(token: Auth.Token, now: int, noteId: int) returns (r: Result<NoteOut, HttpError>)
      requires Valid()
      ensures Authenticate(token, now).Failure? ==> r == Failure(Unauthorized(Authenticate(token, now).error))
      ensures Authenticate(token, now).Success? ==>
                var owner := Authenticate(token, now).value.id;
                && (r.Success? <==> noteId in notes && notes[noteId].ownerId == owner)
                && (r.Success? ==> r.value == ToNoteOut(notes[noteId]))
                && (r.Failure? ==> r.error == NOTE_NOT_FOUND)
    {
      var auth := Deps.GetCurrentUser(token, users, now);
      if auth.Failure? {
        r := Failure(Unauthorized(auth.error));
        return;
      }
      match FindOwned(notes, noteId, auth.value.id)
      case None => r := Failure(NOTE_NOT_FOUND);
      case Some(n) => r := Success(ToNoteOut(n));
    }

    /** `PUT /notes/{id}`: title and content of the caller's note are replaced; nothing else changes. */
    method UpdateNote(token: Auth.Token, now: int, noteId: int, title: string, content: string) returns (r: Result<NoteOut, HttpError>)
      requires Valid()
      modifies this
      ensures Valid()
      ensures users == old(users)
      ensures old(Authenticate(token, now)).Failure? ==>
                r == Failure(Unauthorized(old(Authenticate(token, now)).error)) && notes == old(notes)
      ensures old(Authenticate(token, now)).Success? ==>
                var owner := old(Authenticate(token, now)).value.id;
                if noteId in old(notes) && old(notes)[noteId].ownerId == owner then
                  var n := Updated(old(notes)[noteId], title, content, now);
                  notes == old(notes)[noteId := n] && r == Success(ToNoteOut(n))
                else
                  notes == old(notes) && r == Failure(NOTE_NOT_FOUND)
    {
      var auth := Deps.GetCurrentUser(token, users, now);
      if auth.Failure? {
        r := Failure(Unauthorized(auth.error));
        return;
      }
      match FindOwned(notes, noteId, auth.value.id)
      case None => r := Failure(NOTE_NOT_FOUND);
      case Some(n) =>
        var n' := Updated(n, title, content, now);
        notes := notes[noteId := n'];
        r := Success(ToNoteOut(n'));
    }

    /** `DELETE /notes/{id}`: exactly the caller's note with this id is removed. */
    method DeleteNote(token: Auth.Token, now: int, noteId: int) returns (r: Result<Deleted, HttpError>)
      requires Valid()
      modifies this
      ensures Valid()
      ensures users == old(users)
      ensures old(Authenticate(token, now)).Failure? ==>
                r == Failure(Unauthorized(old(Authenticate(token, now)).error)) && notes == old(notes)
      ensures old(Authenticate(token, now)).Success? ==>
                var owner := old(Authenticate(token, now)).value.id;
                if noteId in old(notes) && old(notes)[noteId].ownerId == owner then
                  notes == old(notes) - {noteId} && r == Success(Deleted(true))
                else
                  notes == old(notes) && r == Failure(NOTE_NOT_FOUND)
    {
      var auth := Deps.GetCurrentUser(token, users, now);
      if auth.Failure? {
        r := Failure(Unauthorized(auth.error));
        return;
      }
      match FindOwned(notes, noteId, auth.value.id)
      case None => r := Failure(NOTE_NOT_FOUND);
      case Some(_) =>
        notes := notes - {noteId};
        largestNoteId := LargestKey(notes, largestNoteId);
        r := Success(Deleted(true));
    }
  }

  /** Example scenario: a registered user logs in with the password they registered with. */
  method ExampleLogin(sha256: Auth.Sha256, now: int)
  {
    var service := new NotesService(sha256);
    var alice := service.Register("a@x.com", "pw1", None);
    assert alice == Success(UserOut(1, "a@x.com", None));
    assert service.users[1].email == "a@x.com";
    var login := service.Login("a@x.com", "pw1", now);
    assert login.Success?;
    var wrong := service.Login("b@x.com", "pw1", now);
    assert wrong == Failure(BAD_CREDENTIALS);
  }

  /** Example scenario: a note created with one user's login token is invisible to any other user. */
  method ExampleIsolation(service: NotesService, alice: int, bob: int, now: int)
    requires service.Valid() && alice in service.users && bob in service.users && alice != bob
    modifies service
  {
    var aliceToken := Auth.CreateAccessToken(LoginClaims(alice), None, now);
    Deps.LoginTokenAuthenticates(service.users, alice, now, now);
    var created := service.CreateNote(aliceToken, now, "T", "C");
    assert created.Success? && created.value.ownerId == alice;
    var bobToken := Auth.CreateAccessToken(LoginClaims(bob), None, now);
    Deps.LoginTokenAuthenticates(service.users, bob, now, now);
    assert service.Authenticate(bobToken, now).value.id == bob;
    var peek := service.GetNote(bobToken, now, created.value.id);
    assert peek == Failure(NOTE_NOT_FOUND);
  }
}

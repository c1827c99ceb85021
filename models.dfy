/**
 * The persisted rows (backend/app/models.py) and the response shapes
 * (backend/app/schemas.py) of the notes service.
 */
module Models {
  import opened Outcomes

  /** A row of `users`. */
  datatype User = User(id: int, email: string, hashedPassword: string, fullName: Option<string>)

  /** A row of `notes`; the two timestamps are instants in microseconds. */
  datatype Note = Note(id: int, title: string, content: string, ownerId: int, createdAt: int, updatedAt: int)

  /** `UserOut`: what register and `/users/me` send back (never the digest). */
  datatype UserOut = UserOut(id: int, email: string, fullName: Option<string>)

  /** `NoteOut`: what the single-note endpoints send back. */
  datatype NoteOut = NoteOut(id: int, title: string, content: string, ownerId: int)

  function ToUserOut(u: User): UserOut {
    UserOut(u.id, u.email, u.fullName)
  }

  function ToNoteOut(n: Note): NoteOut {
    NoteOut(n.id, n.title, n.content, n.ownerId)
  }

  /** Every row is stored under its own primary key. */
  ghost predicate KeyedById(users: map<int, User>) {
    forall k :: k in users ==> users[k].id == k
  }
}

/**
 * The note editor (frontend/components/NoteForm.js): the rules a submission
 * must pass, the request it then sends, the draft it clears, and the
 * auto-save of drafts for new notes. The form's `noteId` is the page's
 * `parseInt(id)` or `null`; `None` stands for `null` and for `NaN`.
 */
module NoteForms {
  import opened Outcomes
  import JsString
  import Drafts
  import Browser
  import Api

  const REQUIRED: string := "Title and content are required"
  const TITLE_TOO_SHORT: string := "Title must be at least 3 characters"
  const CONTENT_TOO_SHORT: string := "Content must be at least 10 characters"
  const SAVE_FAILED: string := "Failed to save note"
  const UPDATED: string := "Note updated successfully!"
  const CREATED: string := "Note created successfully!"

  const MIN_TITLE: nat := 3
  const MIN_CONTENT: nat := 10

  /** JavaScript truthiness of the form's `noteId`: `0` and `NaN` are false. */
  predicate IsExisting(noteId: Option<int>) {
    noteId.Some? && noteId.value != 0
  }

  /** `useNoteDraft(noteId || 'new')`. */
  function DraftIdOf(noteId: Option<int>): (d: Drafts.DraftId)
    ensures d == Drafts.NewNote <==> !IsExisting(noteId)
  {
    if IsExisting(noteId) then Drafts.Existing(noteId.value) else Drafts.NewNote
  }

  /**
   * The message of the first rule the fields break, judged on the trimmed
   * text; `None` when the submission may be sent.
   */
  function Validate(title: string, content: string): (r: Option<string>)
    ensures r == Some(REQUIRED) <==> JsString.IsBlank(title) || JsString.IsBlank(content)
    ensures r == Some(TITLE_TOO_SHORT) <==>
              !JsString.IsBlank(title) && !JsString.IsBlank(content) && |JsString.Trim(title)| < MIN_TITLE
    ensures r == Some(CONTENT_TOO_SHORT) <==>
              |JsString.Trim(title)| >= MIN_TITLE && !JsString.IsBlank(content) && |JsString.Trim(content)| < MIN_CONTENT
    ensures r.None? <==> |JsString.Trim(title)| >= MIN_TITLE && |JsString.Trim(content)| >= MIN_CONTENT
  {
    if JsString.IsBlank(title) || JsString.IsBlank(content) then Some(REQUIRED)
    else if |JsString.Trim(title)| < MIN_TITLE then Some(TITLE_TOO_SHORT)
    else if |JsString.Trim(content)| < MIN_CONTENT then Some(CONTENT_TOO_SHORT)
    else None
  }

  /** The request a valid submission sends, carrying the fields as typed. */
  datatype Request = CreateNote(title: string, content: string) | UpdateNote(id: int, title: string, content: string)

  function RequestFor(noteId: Option<int>, title: string, content: string): (q: Request)
    ensures q.UpdateNote? <==> IsExisting(noteId)
    ensures q.title == title && q.content == content
    ensures q.UpdateNote? ==> q.id == noteId.value
  {
    if IsExisting(noteId) then UpdateNote(noteId.value, title, content) else CreateNote(title, content)
  }

  datatype Toast = SuccessToast(message: string) | ErrorToast(message: string)

  /** The auto-save timer writes a draft: some field has text and the note is new. */
  predicate ShouldAutoSave(noteId: Option<int>, title: string, content: string) {
    (!JsString.IsBlank(title) || !JsString.IsBlank(content)) && !IsExisting(noteId)
  }

  /** An auto-save always writes a draft, under the id `'new'`, and never removes one. */
  lemma AutoSaveWritesNewDraft(noteId: Option<int>, title: string, content: string)
    requires ShouldAutoSave(noteId, title, content)
    ensures DraftIdOf(noteId) == Drafts.NewNote
    ensures Drafts.DraftKey(DraftIdOf(noteId)) == "note_draft_new"
    ensures !(title == "" && content == "")
  {
  }

  class NoteForm {
    const noteId: Option<int>
    const drafts: Drafts.NoteDraft
    var title: string
    var content: string
    var error: Option<string>
    var isSaving: bool

    ghost predicate Valid()
      reads this
    {
      drafts.noteId == DraftIdOf(noteId)
    }

    constructor (noteId: Option<int>, storage: Browser.LocalStorage)
      ensures Valid() && this.noteId == noteId && drafts.storage == storage
      ensures title == "" && content == "" && error == None && !isSaving
    {
      this.noteId := noteId;
      drafts := new Drafts.NoteDraft(DraftIdOf(noteId), storage);
      title, content := "", "";
      error := None;
      isSaving := false;
    }

    /**
     * `handleSubmit`, with `reply` the outcome of the request it sends. A
     * rejected submission shows the first broken rule and sends nothing; an
     * accepted one sends an update for an existing note and a create
     * otherwise, and only a successful create removes the new-note draft.
     */
    method HandleSubmit(reply: Api.Reply<()>) returns (sent: Option<Request>, toast: Toast, finished: bool)
      requires Valid()
      modifies this, drafts.storage
      ensures Valid() && title == old(title) && content == old(content) && error == None
      ensures Validate(old(title), old(content)).Some? ==>
                && sent == None && toast == ErrorToast(Validate(old(title), old(content)).value) && !finished
                && isSaving == old(isSaving) && drafts.storage.items == old(drafts.storage.items)
      ensures Validate(old(title), old(content)).None? ==>
                && sent == Some(RequestFor(noteId, old(title), old(content))) && !isSaving
                && (reply.Ok? ==>
                      && finished
                      && toast == SuccessToast(if IsExisting(noteId) then UPDATED else CREATED)
                      && drafts.storage.items ==
                           if IsExisting(noteId) then old(drafts.storage.items)
                           else old(drafts.storage.items) - {Drafts.DraftKey(Drafts.NewNote)})
                && (reply.Failed? ==>
                      && !finished
                      && toast == ErrorToast(Api.ErrorMessage(reply.detail, SAVE_FAILED))
                      && drafts.storage.items == old(drafts.storage.items))
    {
      error := None;
      var problem := Validate(title, content);
      if problem.Some? {
        return None, ErrorToast(problem.value), false;
      }
      isSaving := true;
      var request := RequestFor(noteId, title, content);
      sent := Some(request);
      match reply {
        case Ok(_) =>
          if request.UpdateNote? {
            toast := SuccessToast(UPDATED);
          } else {
            drafts.RemoveDraft();
            toast := SuccessToast(CREATED);
          }
          finished := true;
        case Failed(detail) =>
          toast := ErrorToast(Api.ErrorMessage(detail, SAVE_FAILED));
          finished := false;
      }
      isSaving := false;
    }

    /** The auto-save timer firing, with the clock readings of the save. */
    method AutoSave(savedAt: string, stampedAt: string) returns (threw: bool)
      requires Valid()
      modifies drafts.storage
      ensures ShouldAutoSave(noteId, title, content) ==>
                && drafts.storage.items == Drafts.SavedItems(old(drafts.storage.items), Drafts.NewNote, title, content, savedAt, stampedAt)
                && threw == Drafts.SaveThrows(old(drafts.storage.items), title, content)
      ensures !ShouldAutoSave(noteId, title, content) ==> drafts.storage.items == old(drafts.storage.items) && !threw
    {
      if ShouldAutoSave(noteId, title, content) {
        threw := drafts.SaveDraft(title, content, savedAt, stampedAt);
      } else {
        threw := false;
      }
    }
  }
}

/**
 * The draft store of a note form (frontend/hooks/useNoteDraft.js): one JSON
 * record per note under `note_draft_<id>`, and one JSON object under
 * `draft_timestamps` mapping each id to the time of its last save. The clock
 * readings `new Date().toISOString()` are parameters.
 */
module Drafts {
  import opened Outcomes
  import Chars
  import Json
  import Browser

  const DRAFT_PREFIX: string := "note_draft_"
  const DRAFT_TIMESTAMP_KEY: string := "draft_timestamps"

  /** The id the hook is created with: an existing note's number, or `'new'`. */
  datatype DraftId = NewNote | Existing(id: int)

  /** The id as text, `${noteId}`. */
  function IdText(d: DraftId): string {
    match d
    case NewNote => "new"
    case Existing(n) => Chars.IntToDecimal(n)
  }

  /** The id as a JSON value. */
  function IdValue(d: DraftId): Json.Scalar {
    match d
    case NewNote => Json.Str("new")
    case Existing(n) => Json.Num(n)
  }

  function DraftKey(d: DraftId): string {
    DRAFT_PREFIX + IdText(d)
  }

  /** Each id has its own draft key, and none of them is the timestamps key. */
  lemma DraftKeysDistinct(a: DraftId, b: DraftId)
    ensures DraftKey(a) == DraftKey(b) <==> a == b
    ensures DraftKey(a) != DRAFT_TIMESTAMP_KEY
  {
    assert DraftKey(a)[0] != DRAFT_TIMESTAMP_KEY[0];
    if DraftKey(a) == DraftKey(b) {
      assert DraftKey(a)[|DRAFT_PREFIX|..] == IdText(a);
      assert DraftKey(b)[|DRAFT_PREFIX|..] == IdText(b);
      if a.Existing? && b.Existing? {
        Chars.IntToDecimalInjective(a.id, b.id);
      }
    }
  }

  /** The record `{title, content, savedAt, noteId}`. */
  function DraftRecord(title: string, content: string, savedAt: string, d: DraftId): seq<Json.Member> {
    [("title", Json.Str(title)), ("content", Json.Str(content)), ("savedAt", Json.Str(savedAt)), ("noteId", IdValue(d))]
  }

  function DraftText(title: string, content: string, savedAt: string, d: DraftId): string {
    Json.Stringify(Json.Object(DraftRecord(title, content, savedAt, d)))
  }

  /** The timestamps object `JSON.parse(getItem(DRAFT_TIMESTAMP_KEY) || '{}')`; `None` where the parse or the assignment to it throws. */
  function ReadTimestamps(stored: Option<string>): Option<seq<Json.Member>> {
    var text := if stored.None? || stored.value == "" then "{}" else stored.value;
    match Json.Parse(text)
    case Some(Object(ms)) => Some(ms)
    case _ => None
  }

  /** The text written back once `timestamps[noteId] = stamp` is done. */
  function StampedTimestamps(stored: Option<string>, d: DraftId, stamp: string): Option<string> {
    match ReadTimestamps(stored)
    case None => None
    case Some(ms) => Some(Json.Stringify(Json.Object(Json.Put(ms, IdText(d), Json.Str(stamp)))))
  }

  /** Whether `saveDraft(title, content)` throws: a record is written and the timestamps cannot be read. */
  predicate SaveThrows(items: map<string, string>, title: string, content: string) {
    !(title == "" && content == "") && ReadTimestamps(Browser.Stored(items, DRAFT_TIMESTAMP_KEY)).None?
  }

  /**
   * The store after `saveDraft(title, content)`: blank title and content
   * remove the draft; otherwise the record is written, and then the
   * timestamps object unless reading it throws. No other key is touched.
   */
  function SavedItems(items: map<string, string>, d: DraftId, title: string, content: string,
                      savedAt: string, stampedAt: string): (r: map<string, string>)
    ensures title == "" && content == "" ==> DraftKey(d) !in r
    ensures !(title == "" && content == "") ==> DraftKey(d) in r && r[DraftKey(d)] == DraftText(title, content, savedAt, d)
    ensures SaveThrows(items, title, content) || (title == "" && content == "") ==>
              Browser.Stored(r, DRAFT_TIMESTAMP_KEY) == Browser.Stored(items, DRAFT_TIMESTAMP_KEY)
    ensures forall k | k in r :: k in items || k == DraftKey(d) || k == DRAFT_TIMESTAMP_KEY
    ensures forall k | k in items && k != DraftKey(d) && k != DRAFT_TIMESTAMP_KEY :: k in r && r[k] == items[k]
  {
    DraftKeysDistinct(d, d);
    if title == "" && content == "" then items - {DraftKey(d)}
    else
      var drafted := items[DraftKey(d) := DraftText(title, content, savedAt, d)];
      match StampedTimestamps(Browser.Stored(items, DRAFT_TIMESTAMP_KEY), d, stampedAt)
      case None => drafted
      case Some(t) => drafted[DRAFT_TIMESTAMP_KEY := t]
  }

  /** The result of `getDraft()`. */
  datatype DraftRead = NoDraft | Draft(record: Json.Value) | ParseError

  /** `draft ? JSON.parse(draft) : null`: an absent or empty item reads as `null`. */
  function ReadDraft(stored: Option<string>): DraftRead {
    if stored.None? || stored.value == "" then NoDraft
    else
      match Json.Parse(stored.value)
      case None => ParseError
      case Some(v) => Draft(v)
  }

  lemma DraftRecordWellOrdered(title: string, content: string, savedAt: string, d: DraftId)
    ensures Json.WellOrdered(DraftRecord(title, content, savedAt, d))
  {
    var ms := DraftRecord(title, content, savedAt, d);
    assert !Json.IsIndexKey("title") by { assert !Chars.IsDigit("title"[0]); }
    assert !Json.IsIndexKey("content") by { assert !Chars.IsDigit("content"[0]); }
    assert !Json.IsIndexKey("savedAt") by { assert !Chars.IsDigit("savedAt"[0]); }
    assert !Json.IsIndexKey("noteId") by { assert !Chars.IsDigit("noteId"[0]); }
  }

  /** A saved record reads back with the title and content it was saved with. */
  lemma DraftReadsBack(title: string, content: string, savedAt: string, d: DraftId)
    ensures ReadDraft(Some(DraftText(title, content, savedAt, d))) == Draft(Json.Object(DraftRecord(title, content, savedAt, d)))
    ensures Json.Lookup(DraftRecord(title, content, savedAt, d), "title") == Some(Json.Str(title))
    ensures Json.Lookup(DraftRecord(title, content, savedAt, d), "content") == Some(Json.Str(content))
  {
    DraftRecordWellOrdered(title, content, savedAt, d);
    Json.StringifyRoundTrip(Json.Object(DraftRecord(title, content, savedAt, d)));
    assert DraftText(title, content, savedAt, d)[0] == '{';
  }

  /**
   * `saveDraft` with some text: the draft then reads back as what was saved,
   * whether or not the timestamps step throws, and `hasDraft()` is true.
   */
  lemma SaveThenGet(items: map<string, string>, d: DraftId, title: string, content: string, savedAt: string, stampedAt: string)
    requires !(title == "" && content == "")
    ensures var after := SavedItems(items, d, title, content, savedAt, stampedAt);
            && DraftKey(d) in after
            && ReadDraft(Browser.Stored(after, DraftKey(d))) == Draft(Json.Object(DraftRecord(title, content, savedAt, d)))
  {
    DraftKeysDistinct(d, d);
    var text := DraftText(title, content, savedAt, d);
    var drafted := items[DraftKey(d) := text];
    var after := SavedItems(items, d, title, content, savedAt, stampedAt);
    match StampedTimestamps(Browser.Stored(items, DRAFT_TIMESTAMP_KEY), d, stampedAt) {
      case None => assert after == drafted;
      case Some(t) => assert after == drafted[DRAFT_TIMESTAMP_KEY := t];
    }
    assert Browser.Stored(after, DraftKey(d)) == Some(text);
    DraftReadsBack(title, content, savedAt, d);
  }

  /** `saveDraft` with blank title and content leaves no draft behind and touches nothing else. */
  lemma BlankSaveRemoves(items: map<string, string>, d: DraftId, savedAt: string, stampedAt: string)
    ensures var after := SavedItems(items, d, "", "", savedAt, stampedAt);
            && DraftKey(d) !in after
            && ReadDraft(Browser.Stored(after, DraftKey(d))) == NoDraft
            && forall k :: k != DraftKey(d) ==> Browser.Stored(after, k) == Browser.Stored(items, k)
  {
  }

  /** A save writes its own draft key and the timestamps key, and no other item. */
  lemma SaveTouchesOnlyItsKeys(items: map<string, string>, d: DraftId, title: string, content: string,
                               savedAt: string, stampedAt: string, k: string)
    requires k != DraftKey(d) && k != DRAFT_TIMESTAMP_KEY
    ensures Browser.Stored(SavedItems(items, d, title, content, savedAt, stampedAt), k) == Browser.Stored(items, k)
  {
  }

  /** Timestamps written back by a save read back as the object with the stamp assigned. */
  lemma StampedTimestampsReadBack(stored: Option<string>, d: DraftId, stamp: string)
    requires ReadTimestamps(stored).Some?
    ensures StampedTimestamps(stored, d, stamp).Some?
    ensures ReadTimestamps(StampedTimestamps(stored, d, stamp))
            == Some(Json.Put(ReadTimestamps(stored).value, IdText(d), Json.Str(stamp)))
  {
    var text := if stored.None? || stored.value == "" then "{}" else stored.value;
    Json.ParsedObjectsWellOrdered(text);
    var ms := ReadTimestamps(stored).value;
    var ms' := Json.Put(ms, IdText(d), Json.Str(stamp));
    Json.PutWellOrdered(ms, IdText(d), Json.Str(stamp));
    Json.StringifyRoundTrip(Json.Object(ms'));
    assert Json.Stringify(Json.Object(ms'))[0] == '{';
  }

  /** With nothing stored yet, the timestamps read as the empty object. */
  lemma NoTimestampsYet()
    ensures ReadTimestamps(None) == Some([])
  {
    Json.EmptyObjectRoundTrip();
  }

  /**
   * When the timestamps can be read, a save with some text records the stamp
   * under its own id and keeps every other id's entry; with no timestamps
   * stored yet, the object then holds that one entry.
   */
  lemma SaveRecordsTimestamp(items: map<string, string>, d: DraftId, title: string, content: string,
                             savedAt: string, stampedAt: string, other: string)
    requires !(title == "" && content == "")
    requires !SaveThrows(items, title, content)
    requires other != IdText(d)
    ensures var before := ReadTimestamps(Browser.Stored(items, DRAFT_TIMESTAMP_KEY)).value;
            var after := ReadTimestamps(Browser.Stored(SavedItems(items, d, title, content, savedAt, stampedAt), DRAFT_TIMESTAMP_KEY));
            && after.Some?
            && Json.Lookup(after.value, IdText(d)) == Some(Json.Str(stampedAt))
            && Json.Lookup(after.value, other) == Json.Lookup(before, other)
    ensures DRAFT_TIMESTAMP_KEY !in items ==>
            ReadTimestamps(Browser.Stored(SavedItems(items, d, title, content, savedAt, stampedAt), DRAFT_TIMESTAMP_KEY))
              == Some([(IdText(d), Json.Str(stampedAt))])
  {
    var stored := Browser.Stored(items, DRAFT_TIMESTAMP_KEY);
    StampedTimestampsReadBack(stored, d, stampedAt);
    var t := StampedTimestamps(stored, d, stampedAt).value;
    DraftKeysDistinct(d, d);
    assert Browser.Stored(SavedItems(items, d, title, content, savedAt, stampedAt), DRAFT_TIMESTAMP_KEY) == Some(t);
    var ms := ReadTimestamps(stored).value;
    Json.LookupPut(ms, IdText(d), Json.Str(stampedAt), other);
    if DRAFT_TIMESTAMP_KEY !in items {
      NoTimestampsYet();
    }
  }

  /** The draft hook of one form, over the page's local storage. */
  class NoteDraft {
    const noteId: DraftId
    const storage: Browser.LocalStorage

    constructor (noteId: DraftId, storage: Browser.LocalStorage)
      ensures this.noteId == noteId && this.storage == storage
    {
      this.noteId := noteId;
      this.storage := storage;
    }

    /** `saveDraft(title, content)` with the two clock readings it makes. */
    method SaveDraft(title: string, content: string, savedAt: string, stampedAt: string) returns (threw: bool)
      modifies storage
      ensures storage.items == SavedItems(old(storage.items), noteId, title, content, savedAt, stampedAt)
      ensures threw == SaveThrows(old(storage.items), title, content)
    {
      if title == "" && content == "" {
        RemoveDraft();
        return false;
      }
      DraftKeysDistinct(noteId, noteId);
      storage.SetItem(DraftKey(noteId), DraftText(title, content, savedAt, noteId));
      var timestamps := ReadTimestamps(storage.GetItem(DRAFT_TIMESTAMP_KEY));
      if timestamps.None? {
        return true;
      }
      var stamped := Json.Put(timestamps.value, IdText(noteId), Json.Str(stampedAt));
      storage.SetItem(DRAFT_TIMESTAMP_KEY, Json.Stringify(Json.Object(stamped)));
      threw := false;
    }

    /**
     * `getDraft()`: `null` for an absent or empty item, the parsed value of
     * any other item, and the `SyntaxError` of one that does not parse.
     */
    function GetDraft(): (r: DraftRead)
      reads this, storage
      ensures r == NoDraft <==> DraftKey(noteId) !in storage.items || storage.items[DraftKey(noteId)] == ""
      ensures r == ParseError <==>
                && DraftKey(noteId) in storage.items && storage.items[DraftKey(noteId)] != ""
                && Json.Parse(storage.items[DraftKey(noteId)]).None?
      ensures r.Draft? ==> Json.Parse(storage.items[DraftKey(noteId)]) == Some(r.record)
    {
      ReadDraft(storage.GetItem(DraftKey(noteId)))
    }

    /** `removeDraft()`: only this draft's key goes; the timestamps stay. */
    method RemoveDraft()
      modifies storage
      ensures storage.items == old(storage.items) - {DraftKey(noteId)}
    {
      storage.RemoveItem(DraftKey(noteId));
    }

    /** `hasDraft()`: `getItem` does not return `null`, so an empty item counts. */
    function HasDraft(): (b: bool)
      reads this, storage
      ensures b <==> DraftKey(noteId) in storage.items
    {
      storage.GetItem(DraftKey(noteId)).Some?
    }
  }

  /** `hasDraft()` is false exactly when `getDraft()` finds no item; an empty item is a draft `getDraft` reads as `null`. */
  lemma HasDraftAgreesWithGetDraft(items: map<string, string>, d: DraftId)
    ensures Browser.Stored(items, DraftKey(d)).Some? <==> DraftKey(d) in items
    ensures DraftKey(d) !in items ==> ReadDraft(Browser.Stored(items, DraftKey(d))) == NoDraft
  {
  }
}

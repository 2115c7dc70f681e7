/**
 * The mutations of src/hooks/useNotes.ts: the row a save sends (an update of
 * the note's id, or an insert carrying the user's id), the note the save
 * returns, and the delete. The backend's table is abstracted as a map from
 * note id to row, which stands in for the remote `notes` table.
 */
module NoteSave {
  import opened Wrappers
  import opened Text
  import opened NoteTypes
  import NoteList

  /** The fields written on every save (`noteData`). */
  datatype NoteData = NoteData(
    title: string,
    content: string,
    photoUrl: Option<string>,
    voiceUrl: Option<string>,
    folderId: Option<string>,
    tags: Option<seq<string>>,
    updatedAt: string,
    password: Option<string>,
    passwordHash: Option<string>,
    passwordSalt: Option<string>)

  /** The backend call a save issues. */
  datatype SaveWrite =
    | Update(id: string, data: NoteData)          // `.update(noteData).eq("id", id)`
    | Insert(data: NoteData, userId: string)      // `.insert([{...noteData, user_id}]).select()`

  /** The backend's answer to a write: an error, or the rows it returned. */
  datatype Reply = Failed(message: string) | Replied(rows: seq<Note>)

  /** What a successful save returns. */
  datatype SavedNote =
    | Updated(form: NoteFormData, isPasswordProtected: bool)   // `{...note, is_password_protected}`
    | Created(note: Note)                                      // the inserted row, normalised

  /** `noteData`: the form's fields with `updated_at` set to `now`. */
  function NoteDataOf(note: NoteFormData, now: string): NoteData {
    NoteData(note.title, note.content, note.photoUrl, note.voiceUrl, note.folderId, note.tags, now,
             note.password, note.passwordHash, note.passwordSalt)
  }

  /** `d` carries exactly the form's fields, stamped with `now`. */
  predicate CarriesForm(d: NoteData, note: NoteFormData, now: string) {
    && d.title == note.title && d.content == note.content
    && d.photoUrl == note.photoUrl && d.voiceUrl == note.voiceUrl
    && d.folderId == note.folderId && d.tags == note.tags
    && d.password == note.password && d.passwordHash == note.passwordHash
    && d.passwordSalt == note.passwordSalt && d.updatedAt == now
  }

  /**
   * The write a save issues for the form data `note` at time `now`: none
   * without a session; an update of that id when the form has a non-empty id;
   * otherwise an insert of the same fields with the session user's id.
   */
  function SaveRequest(session: Option<Session>, note: NoteFormData, now: string): (r: Result<SaveWrite, Error>)
    ensures r.Failure? <==> session.None?
    ensures r.Failure? ==> r.error == NotAuthenticated
    ensures r.Success? ==> CarriesForm(r.value.data, note, now)
    ensures r.Success? ==> (r.value.Update? <==> Truthy(note.id))
    ensures r.Success? && r.value.Update? ==> r.value.id == note.id.value
    ensures r.Success? && r.value.Insert? ==> r.value.userId == session.value.userId
  {
    if session.None? then Failure(NotAuthenticated)
    else
      var data := NoteDataOf(note, now);
      if Truthy(note.id) then Success(Update(note.id.value, data))
      else Success(Insert(data, session.value.userId))
  }

  /**
   * The note a save returns, given the write it issued and the backend's
   * reply. An updated note is the form data, marked protected iff it has both
   * a password hash and a salt; a created note is the first returned row with
   * tags and folder defaulted and the same protection rule.
   */
  function SaveResponse(note: NoteFormData, w: SaveWrite, reply: Reply): (r: Result<SavedNote, Error>)
    ensures reply.Failed? ==> r == Failure(Backend(reply.message))
    ensures reply.Replied? && w.Update? ==>
      r == Success(Updated(note, Truthy(note.passwordHash) && Truthy(note.passwordSalt)))
    ensures reply.Replied? && w.Insert? && reply.rows == [] ==> r == Failure(NoRowReturned)
    ensures reply.Replied? && w.Insert? && reply.rows != [] ==>
      r.Success? && r.value.Created? &&
      var row, n := reply.rows[0], r.value.note;
      && n.tags == Some(TagsOrEmpty(row.tags))
      && n.folderId == (if Truthy(row.folderId) then row.folderId else None)
      && (n.isPasswordProtected <==> Truthy(row.passwordHash) && Truthy(row.passwordSalt))
      && n.(tags := row.tags, folderId := row.folderId, isPasswordProtected := row.isPasswordProtected) == row
  {
    match reply
    case Failed(message) => Failure(Backend(message))
    case Replied(rows) =>
      match w
      case Update(_, _) =>
        Success(Updated(note, Truthy(note.passwordHash) && Truthy(note.passwordSalt)))
      case Insert(_, _) =>
        if rows == [] then Failure(NoRowReturned)
        else
          var row := rows[0];
          Success(Created(row.(folderId := if Truthy(row.folderId) then row.folderId else None,
                               tags := Some(TagsOrEmpty(row.tags)),
                               isPasswordProtected := Truthy(row.passwordHash) && Truthy(row.passwordSalt))))
  }

  /** The whole save: no write and `NotAuthenticated` without a session, otherwise the reply to the write. */
  function CreateOrUpdateNote(session: Option<Session>, note: NoteFormData, now: string, reply: Reply)
    : (r: Result<SavedNote, Error>)
    ensures session.None? ==> r == Failure(NotAuthenticated)
    ensures session.Some? ==> r == SaveResponse(note, SaveRequest(session, note, now).value, reply)
  {
    match SaveRequest(session, note, now)
    case Failure(e) => Failure(e)
    case Success(w) => SaveResponse(note, w, reply)
  }

  /** `deleteNote`: no session check; succeeds unless the backend reports an error. */
  function DeleteNote(id: string, replyError: Option<string>): (r: Result<(), Error>)
    ensures r.Success? <==> replyError.None?
    ensures r.Failure? ==> r.error == Backend(replyError.value)
  {
    if replyError.Some? then Failure(Backend(replyError.value)) else Success(())
  }

  // ---------------------------------------------------------------------------
  // The listing and the save disagree on when a note is protected
  // ---------------------------------------------------------------------------

  /**
   * A note saved with only a legacy password is returned unprotected by the
   * save, while the row the update leaves in the table is listed as protected.
   */
  lemma ProtectionFlagsDisagree(table: Table, session: Session, note: NoteFormData, now: string,
                                newId: string, createdAt: string)
    requires Truthy(note.id) && note.id.value in table
    requires Truthy(note.password) && note.passwordHash.None? && note.passwordSalt.None?
    ensures CreateOrUpdateNote(Some(session), note, now, Replied([])) == Success(Updated(note, false))
    ensures NoteList.Normalise(ApplySave(table, SaveRequest(Some(session), note, now).value, newId, createdAt)[note.id.value])
              .isPasswordProtected
  {
    var w := SaveRequest(Some(session), note, now).value;
    var stored := ApplySave(table, w, newId, createdAt)[note.id.value];
    assert stored.password == note.password;
  }

  // ---------------------------------------------------------------------------
  // A stand-in for the backend table
  // ---------------------------------------------------------------------------

  /** The `notes` table, rows by id. */
  type Table = map<string, Note>

  /** The row `n` holds every column the write `d` sets. */
  predicate Stores(n: Note, d: NoteData) {
    && n.title == d.title && n.content == Some(d.content)
    && n.photoUrl == d.photoUrl && n.voiceUrl == d.voiceUrl
    && n.folderId == d.folderId && n.tags == d.tags && n.updatedAt == d.updatedAt
    && n.password == d.password
  }

  /**
   * A credential column after an update: the sent value, or the stored one
   * when the key is absent from the body (`undefined` is dropped when the
   * body is serialised).
   */
  function Written(sent: Option<string>, stored: Option<string>): (v: Option<string>)
    ensures sent.Some? ==> v == sent
    ensures sent.None? ==> v == stored
  {
    if sent.Some? then sent else stored
  }

  /**
   * The backend applying a save: an update rewrites the written fields of the
   * row with that id (no row, no change), keeping a stored hash or salt the
   * body does not carry; an insert adds a row under the backend-chosen
   * `newId`, stamped `createdAt`, whose absent credentials are null.
   */
  function ApplySave(table: Table, w: SaveWrite, newId: string, createdAt: string): (t: Table)
    ensures w.Update? ==> t.Keys == table.Keys
    ensures w.Insert? ==> t.Keys == table.Keys + {newId}
    ensures w.Update? && w.id in table ==>
      var before, d := table[w.id], t[w.id];
      && Stores(d, w.data)
      && d.passwordHash == (if w.data.passwordHash.Some? then w.data.passwordHash else before.passwordHash)
      && d.passwordSalt == (if w.data.passwordSalt.Some? then w.data.passwordSalt else before.passwordSalt)
      && d.id == before.id && d.userId == before.userId && d.createdAt == before.createdAt
      && d.isPasswordProtected == before.isPasswordProtected
    ensures w.Insert? ==>
      var d := t[newId];
      && Stores(d, w.data) && d.passwordHash == w.data.passwordHash && d.passwordSalt == w.data.passwordSalt
      && d.id == newId && d.userId == w.userId && d.createdAt == createdAt && !d.isPasswordProtected
    ensures forall k :: k in table && (w.Update? ==> k != w.id) && (w.Insert? ==> k != newId) ==> t[k] == table[k]
  {
    match w
    case Update(id, d) =>
      if id in table then
        table[id := table[id].(title := d.title, content := Some(d.content), photoUrl := d.photoUrl,
                               voiceUrl := d.voiceUrl, folderId := d.folderId, tags := d.tags,
                               updatedAt := d.updatedAt, password := d.password,
                               passwordHash := Written(d.passwordHash, table[id].passwordHash),
                               passwordSalt := Written(d.passwordSalt, table[id].passwordSalt))]
      else table
    case Insert(d, userId) =>
      table[newId := Note(newId, d.title, Some(d.content), d.photoUrl, d.voiceUrl, d.folderId, d.tags,
                          d.password, d.passwordHash, d.passwordSalt, false, createdAt, d.updatedAt, userId)]
  }

  /**
   * Saving from the editor, which sends no hash, leaves a stored hash in
   * place: the row stays listed as protected.
   */
  lemma UpdateKeepsUnsentHash(table: Table, session: Session, note: NoteFormData, now: string,
                              newId: string, createdAt: string)
    requires Truthy(note.id) && note.id.value in table
    requires note.passwordHash.None? && Truthy(table[note.id.value].passwordHash)
    ensures var stored := ApplySave(table, SaveRequest(Some(session), note, now).value, newId, createdAt)[note.id.value];
      stored.passwordHash == table[note.id.value].passwordHash && NoteList.Normalise(stored).isPasswordProtected
  {
    var w := SaveRequest(Some(session), note, now).value;
    assert w.Update? && w.id == note.id.value && w.data.passwordHash.None?;
  }

  /** The backend applying a delete. */
  function ApplyDelete(table: Table, id: string): (t: Table)
    ensures id !in t
    ensures forall k :: k in table && k != id ==> k in t && t[k] == table[k]
  {
    table - {id}
  }

  /** `rows` is a listing of the whole table: exactly its rows, each under its own id. */
  ghost predicate ListsTable(rows: seq<Note>, t: Table) {
    && (forall n :: n in rows ==> n.id in t && t[n.id] == n)
    && (forall k :: k in t ==> t[k] in rows)
  }

  /** After a delete, no listing of the table shows a note with that id, whatever the selection. */
  lemma DeletedNoteNotListed(table: Table, id: string, rows: seq<Note>, selectedFolderId: Option<string>,
                             selectedTag: Option<string>, searchTerm: string, n: Note)
    requires ListsTable(rows, ApplyDelete(table, id))
    requires n in NoteList.Visible(rows, selectedFolderId, selectedTag, searchTerm)
    ensures n.id != id
  {
    NoteList.VisibleNormalised(rows, selectedFolderId, selectedTag, searchTerm, n);
    var row :| row in rows && n == NoteList.Normalise(row);
  }

  /**
   * After a successful insert under a fresh id, the unfiltered listing shows a
   * note with that id and the saved title.
   */
  lemma CreatedNoteListed(table: Table, session: Session, note: NoteFormData, now: string,
                          newId: string, createdAt: string, rows: seq<Note>)
    requires !Truthy(note.id) && newId !in table
    requires ListsTable(rows, ApplySave(table, SaveRequest(Some(session), note, now).value, newId, createdAt))
    ensures exists n :: n in NoteList.Visible(rows, None, None, "") && n.id == newId && n.title == note.title
  {
    var w := SaveRequest(Some(session), note, now).value;
    var t := ApplySave(table, w, newId, createdAt);
    var row := t[newId];
    assert row in rows;
    NoteList.NoSelectionListsAll(rows, None, None);
    var i :| 0 <= i < |rows| && rows[i] == row;
    assert NoteList.NormaliseAll(rows)[i] == NoteList.Normalise(row);
    assert NoteList.Normalise(row) in NoteList.Visible(rows, None, None, "");
  }
}

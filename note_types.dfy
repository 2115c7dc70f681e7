/**
 * The records the client exchanges with the backend's `notes` table
 * (src/types/note.ts), the session it reads and the errors it raises.
 */
module NoteTypes {
  import opened Wrappers

  /**
   * A row of the `notes` table as the client sees it. `passwordHash` and
   * `passwordSalt` are read from the row by src/hooks/useNotes.ts although the
   * `Note` type does not declare them.
   */
  datatype Note = Note(
    id: string,
    title: string,
    content: Option<string>,
    photoUrl: Option<string>,
    voiceUrl: Option<string>,
    folderId: Option<string>,
    tags: Option<seq<string>>,
    password: Option<string>,
    passwordHash: Option<string>,
    passwordSalt: Option<string>,
    isPasswordProtected: bool,
    createdAt: string,
    updatedAt: string,
    userId: string)

  /**
   * What the editor hands to a save: `id` is absent when creating. The two
   * credential fields are read by the save although `NoteFormData` does not
   * declare them; the note editor never sets them. For these two, `None`
   * stands for a key that is absent (`undefined`), which an update body
   * leaves out, rather than for an explicit `null`.
   */
  datatype NoteFormData = NoteFormData(
    id: Option<string>,
    title: string,
    content: string,
    photoUrl: Option<string>,
    voiceUrl: Option<string>,
    folderId: Option<string>,
    tags: Option<seq<string>>,
    password: Option<string>,
    passwordHash: Option<string>,
    passwordSalt: Option<string>)

  /** The backend session: only the signed-in user's id is used. */
  datatype Session = Session(userId: string)

  /** Errors the note hooks throw. */
  datatype Error =
    | NotAuthenticated           // "Not authenticated": no backend session
    | Backend(message: string)   // an error the backend reported, passed through
    | NoRowReturned              // the insert's reply held no row, so reading `data[0]` fails

  /** `tags || []`: a missing tag list is the empty one. */
  function TagsOrEmpty(tags: Option<seq<string>>): seq<string> {
    tags.GetOr([])
  }
}

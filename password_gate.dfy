/**
 * The access gate of src/hooks/usePasswordVerification.ts. The blocking
 * `prompt` is modelled by its answer, an input (`None` when cancelled); the
 * denial toast is counted.
 */
module PasswordGate {
  import opened Wrappers
  import opened Text
  import opened NoteTypes
  import NoteList

  /** `verifyNotePassword`: the only check is equality with the legacy plaintext password. */
  function VerifyNotePassword(note: Note, password: string): (ok: bool)
    ensures ok <==> note.password.Some? && note.password.value == password
  {
    note.password == Some(password)
  }

  /** The gate's decision: access granted, whether the prompt was shown, and how many denial toasts were raised. */
  datatype Access = Access(granted: bool, prompted: bool, denials: nat)

  /**
   * `checkNoteAccess`: an unprotected note opens with no prompt; a protected
   * note prompts, and opens only for a non-empty answer equal to its legacy
   * password; every denial raises exactly one toast.
   */
  function CheckNoteAccess(note: Note, answer: Option<string>): (a: Access)
    ensures a.prompted <==> note.isPasswordProtected
    ensures a.granted <==> !note.isPasswordProtected || (Truthy(answer) && note.password == answer)
    ensures a.denials == (if a.granted then 0 else 1)
  {
    if note.isPasswordProtected then
      if !Truthy(answer) || !VerifyNotePassword(note, answer.value) then Access(false, true, 1)
      else Access(true, true, 0)
    else
      Access(true, false, 0)
  }

  /** A note without a legacy password is never verified, whatever is typed. */
  lemma NoLegacyPasswordNeverVerifies(note: Note, password: string)
    requires note.password.None?
    ensures !VerifyNotePassword(note, password)
  {
  }

  /** A protected note whose prompt is cancelled or answered empty is denied with one toast. */
  lemma CancelledOrEmptyIsDenied(note: Note, answer: Option<string>)
    requires note.isPasswordProtected && (answer.None? || answer == Some(""))
    ensures CheckNoteAccess(note, answer) == Access(false, true, 1)
  {
  }

  /** A protected note opens for its legacy password with no toast, and for no other answer. */
  lemma OnlyTheLegacyPasswordOpens(note: Note, answer: string)
    requires note.isPasswordProtected
    ensures CheckNoteAccess(note, Some(answer)).granted <==> answer != "" && note.password == Some(answer)
    ensures CheckNoteAccess(note, Some(answer)).granted ==> CheckNoteAccess(note, Some(answer)).denials == 0
  {
  }

  /**
   * A listed note whose row has a password hash but no legacy password is
   * marked protected by the listing, yet the gate denies it for every answer:
   * such a note can never be opened.
   */
  lemma HashOnlyNoteIsAlwaysDenied(row: Note, answer: Option<string>)
    requires !Truthy(row.password) && Truthy(row.passwordHash)
    ensures NoteList.Normalise(row).isPasswordProtected
    ensures CheckNoteAccess(NoteList.Normalise(row), answer) == Access(false, true, 1)
  {
  }

  /** The same, over the listing: no answer opens any listed note that has only a hash. */
  lemma ListedHashOnlyNoteIsAlwaysDenied(table: seq<Note>, selectedFolderId: Option<string>,
                                         selectedTag: Option<string>, searchTerm: string,
                                         n: Note, answer: Option<string>)
    requires n in NoteList.Visible(table, selectedFolderId, selectedTag, searchTerm)
    requires !Truthy(n.password) && Truthy(n.passwordHash)
    ensures !CheckNoteAccess(n, answer).granted
  {
    NoteList.VisibleNormalised(table, selectedFolderId, selectedTag, searchTerm, n);
  }
}

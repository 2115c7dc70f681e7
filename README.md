# Notes client core, modelled in Dafny

This project models the logic of a small note-taking web client whose data
lives in a hosted backend. The client lists the signed-in user's notes and
can restrict them to a folder, a tag and a search term. It derives the
distinct tags in use and builds the rows it sends when a note is saved or
deleted. It also gates password-protected notes behind a prompt, keeps the
state of the note editor and its tag editor, and tracks two session flags
(authenticated, developer access).

The backend is abstract. A session is an `Option<Session>` input. The rows a
query returns are a `seq<Note>` in the backend's order. A backend error is an
`Option<string>` input. Where stored state matters, a `map<string, Note>`
stands in for the `notes` table. The current time and the answer to the
password prompt are also inputs.

Modules, one per source concern:

- `Wrappers` (wrappers.dfy): `Option` and `Result`.
- `Text` (text.dfy): JavaScript string truthiness, `trim`, `toLowerCase` and `includes`.
- `NoteTypes` (note_types.dfy): `Note`, `NoteFormData`, `Session` and `Error`, mirroring src/types/note.ts.
  It adds the `password_hash` and `password_salt` fields that the save reads.
- `NoteList` (note_list.dfy): the list query, the row normalisation, the tag and search filters and `allTags` (src/hooks/useNotes.ts).
- `NoteSave` (note_save.dfy): the save and delete mutations and the backend stand-in (src/hooks/useNotes.ts).
- `TagInput` (tag_input.dfy): the tag editor's handlers (src/components/notes/TagInput.tsx).
- `PasswordGate` (password_gate.dfy): `verifyNotePassword` and `checkNoteAccess` (src/hooks/usePasswordVerification.ts).
- `NoteFormState` (note_form.dfy): the editor state as a class (src/components/notes/NoteForm.tsx).
- `Auth` (auth.dfy): the session flags as a class plus a transition function (src/App.tsx).

Names follow Dafny style. The `password_hash` column, for example, is the
field `passwordHash`.

Two behaviours of the code are worth stating up front:

- The only password verification is plaintext equality with the legacy
  `password` (src/hooks/usePasswordVerification.ts:9-12). No code here
  hashes an answer. The listing marks a note protected when it has a legacy
  password or a hash (src/hooks/useNotes.ts:39). So a note that has only a
  hash is listed as protected but can never be opened.
  `PasswordGate.HashOnlyNoteIsAlwaysDenied` and
  `PasswordGate.ListedHashOnlyNoteIsAlwaysDenied` prove this.
- The code derives protection in two ways. The listing uses
  password-or-hash (src/hooks/useNotes.ts:39). The note a save returns uses
  hash-and-salt (src/hooks/useNotes.ts:104,130).
  `NoteSave.ProtectionFlagsDisagree` shows an update that the save reports
  as unprotected, while the row it leaves in the table is listed as
  protected.

## Model

| member | source | states |
|---|---|---|
| `Text.TrimStart` | src/components/notes/TagInput.tsx:28 | the result is a suffix of the input, everything dropped is white space, and it does not start with white space |
| `Text.TrimEnd` | src/components/notes/TagInput.tsx:28 | the result is a prefix of the input, everything dropped is white space, and it does not end with white space |
| `Text.Trim` | src/components/notes/TagInput.tsx:17-30 | the result is empty iff the input is all white space; otherwise it neither starts nor ends with white space; it occurs in the input at a position with only white space before and only white space after it |
| `Text.TrimIdempotent` | src/components/notes/TagInput.tsx:17-19 | trimming twice equals trimming once (the key handler trims, then `addTag` trims again) |
| `Text.Lower` | src/hooks/useNotes.ts:54-57 | `toLowerCase`: same length, each character lowered |
| `Text.Contains` | src/hooks/useNotes.ts:56-57 | `includes` holds iff the needle occurs at some position of the haystack |
| `NoteList.NormaliseFields` | src/hooks/useNotes.ts:31-41 | normalising a row gives tags `[]` when null, folder null when absent or empty, protection iff legacy password or hash is non-empty, and keeps every other field |
| `NoteList.NormaliseAll` | src/hooks/useNotes.ts:31 | the map keeps length and normalises each row in place |
| `NoteList.FetchNotes` | src/hooks/useNotes.ts:12-61 | without a session it fails with `NotAuthenticated` before any query; a backend error is passed through; otherwise the staged tag-then-search result equals the one-pass reference `Visible` |
| `NoteList.SelectIsStaged` | src/hooks/useNotes.ts:45-59 | filtering by tag and then by search term equals one pass that keeps the notes passing both tests |
| `NoteList.TagAndSearchCommute` | src/hooks/useNotes.ts:45-59 | the tag filter and the search filter commute |
| `NoteList.SelectMembership` | src/hooks/useNotes.ts:45-59 | a note is kept iff it is in the input and has the tag (when a non-empty tag is selected) and matches the lowercased term in its title or non-empty content (when the term is non-empty) |
| `NoteList.SelectIsSubsequence` | src/hooks/useNotes.ts:45-59 | the filters only remove notes: the result is an order-preserving subsequence of the input |
| `NoteList.SelectNewestFirst` | src/hooks/useNotes.ts:45-59 | filtering keeps a newest-first list newest-first |
| `NoteList.WithFolderMembership` | src/hooks/useNotes.ts:21-23 | the folder condition keeps exactly the rows whose folder id equals the selected one |
| `NoteList.WithFolderNewestFirst` | src/hooks/useNotes.ts:16-23 | the folder condition keeps a newest-first table newest-first |
| `NoteList.VisibleMembership` | src/hooks/useNotes.ts:16-59 | a note is listed iff it passes both filters and is the normalisation of a row the query returned |
| `NoteList.VisibleNormalised` | src/hooks/useNotes.ts:31-41 | every listed note has a tag list, never an empty folder id, and is protected iff it has a legacy password or a hash; it comes from a row of the table |
| `NoteList.VisibleInFolder` | src/hooks/useNotes.ts:21-23 | with a folder selected, every listed note has exactly that folder id |
| `NoteList.NoSelectionListsAll` | src/hooks/useNotes.ts:16-61 | with no folder, no tag and an empty term, every row is listed, normalised, in the backend's order |
| `NoteList.SelectAllKept` | src/hooks/useNotes.ts:46-53 | a null or empty tag together with an empty term filters nothing |
| `NoteList.VisibleIsSubsequence` | src/hooks/useNotes.ts:31-61 | the list is an order-preserving subsequence of the normalised fetched rows |
| `NoteList.VisibleNewestFirst` | src/hooks/useNotes.ts:16-61 | if the backend returns rows by `created_at` descending, the list is in that order |
| `NoteList.NonEmpty` | src/hooks/useNotes.ts:70 | `.filter(Boolean)` keeps exactly the non-empty strings and never lengthens the list |
| `NoteList.NonEmptyConcat` | src/hooks/useNotes.ts:70 | `.filter(Boolean)` distributes over concatenation; with the length bound and membership of `NonEmpty`, this means it keeps every occurrence of a non-empty string, in order, and nothing else |
| `NoteList.Distinct` | src/hooks/useNotes.ts:66-72 | the result has no duplicates and the same elements as the input |
| `NoteList.DistinctKeepsFirstOccurrenceOrder` | src/hooks/useNotes.ts:66-72 | the result lists the elements in the order of their first occurrence in the input |
| `NoteList.FlatTagsMembership` | src/hooks/useNotes.ts:69 | a string is in the flattened tags iff some note's tags (null as `[]`) contain it |
| `NoteList.AllTagsSpec` | src/hooks/useNotes.ts:66-72 | `allTags` has no duplicates and no empty string, holds exactly the non-empty tags of the notes, and keeps first-occurrence order |
| `NoteSave.SaveRequest` | src/hooks/useNotes.ts:76-116 | without a session no write and `NotAuthenticated`; with a non-empty id an update of that id; otherwise an insert carrying the session user's id; both carry the form's fields with `updated_at` set to now |
| `NoteSave.SaveResponse` | src/hooks/useNotes.ts:100-131 | a backend error is passed through; an update returns the form data, protected iff hash and salt are both non-empty; an insert returns the first returned row with tags and folder defaulted and the same protection rule; no returned row is an error |
| `NoteSave.CreateOrUpdateNote` | src/hooks/useNotes.ts:75-132 | without a session the save fails with `NotAuthenticated` whatever the backend would answer; otherwise the reply to the issued write decides |
| `NoteSave.DeleteNote` | src/hooks/useNotes.ts:152-155 | delete does no session check and succeeds iff the backend reports no error |
| `NoteSave.ProtectionFlagsDisagree` | src/hooks/useNotes.ts:39-104 | a note with only a legacy password is returned unprotected by an update, while the row that update leaves in the table is listed as protected |
| `NoteSave.ApplySave` | src/hooks/useNotes.ts:80-116 | backend stand-in: an update stores every written column in the row with that id, keeps a stored hash or salt that the body does not carry, and keeps the row's id, owner, creation time and flag; an insert adds a row under the new id holding every written column, the user's id, the creation time and an unset flag; other rows stay unchanged |
| `NoteSave.UpdateKeepsUnsentHash` | src/hooks/useNotes.ts:90-98 | an update from the editor, which sends no hash, leaves a stored hash in place, so the row stays listed as protected |
| `NoteSave.ApplyDelete` | src/hooks/useNotes.ts:153 | backend stand-in: the id is gone and other rows stay unchanged |
| `NoteSave.DeletedNoteNotListed` | src/hooks/useNotes.ts:153 | after a delete, no listing of the table shows a note with that id |
| `NoteSave.CreatedNoteListed` | src/hooks/useNotes.ts:106-116 | after an insert under a fresh id, the unfiltered listing shows a note with that id and the saved title |
| `TagInput.CurrentTags` | src/components/notes/TagInput.tsx:14 | a null tag list is the empty list |
| `TagInput.AddTag` | src/components/notes/TagInput.tsx:26-36 | the field is always cleared; a blank tag changes nothing; the trimmed tag is appended iff no existing tag equals it ignoring case |
| `TagInput.AddTagKeepsNoCaseDuplicates` | src/components/notes/TagInput.tsx:29-33 | a list with no case-insensitive duplicates has none after adding |
| `TagInput.AddTagTwice` | src/components/notes/TagInput.tsx:29-33 | adding the same tag twice equals adding it once |
| `TagInput.WithoutIndex` | src/components/notes/TagInput.tsx:39 | filtering out position `index` removes exactly that element, keeps the rest in order, and changes nothing for an out-of-range index |
| `TagInput.RemoveTag` | src/components/notes/TagInput.tsx:38-40 | emits the list without element `index`, or the same list when out of range; the field is untouched |
| `TagInput.RemoveTagKeepsNoCaseDuplicates` | src/components/notes/TagInput.tsx:38-40 | removing keeps the list free of case-insensitive duplicates |
| `TagInput.HandleKeyDown` | src/components/notes/TagInput.tsx:16-24 | Enter on a non-blank field appends the trimmed text unless a tag matches it ignoring case, and clears the field; Backspace on an empty field drops the last tag; every other key changes nothing |
| `TagInput.AddButton` | src/components/notes/TagInput.tsx:75-79 | on a non-blank field, adds like Enter; on a blank one, changes nothing |
| `PasswordGate.VerifyNotePassword` | src/hooks/usePasswordVerification.ts:9-12 | true iff the string equals the note's legacy password exactly |
| `PasswordGate.CheckNoteAccess` | src/hooks/usePasswordVerification.ts:14-27 | the prompt is shown iff the note is protected; access is granted iff unprotected or the answer is non-empty and equals the legacy password; a denial raises exactly one toast, a grant none |
| `PasswordGate.NoLegacyPasswordNeverVerifies` | src/hooks/usePasswordVerification.ts:11 | a note without a legacy password is verified by no string |
| `PasswordGate.CancelledOrEmptyIsDenied` | src/hooks/usePasswordVerification.ts:16-24 | a cancelled or empty answer on a protected note is denied with one toast |
| `PasswordGate.OnlyTheLegacyPasswordOpens` | src/hooks/usePasswordVerification.ts:17-26 | a protected note opens for exactly its non-empty legacy password, with no toast |
| `PasswordGate.HashOnlyNoteIsAlwaysDenied` | src/hooks/usePasswordVerification.ts:11-17 | a row with a hash and no legacy password is listed as protected and then denied for every answer |
| `PasswordGate.ListedHashOnlyNoteIsAlwaysDenied` | src/hooks/usePasswordVerification.ts:14-24 | no answer opens any listed note that carries only a hash |
| `NoteFormState.NoteForm.constructor` | src/components/notes/NoteForm.tsx:32-39 | the eight fields start at their defaults |
| `NoteFormState.NoteForm.ResetNoteForm` | src/components/notes/NoteForm.tsx:60-69 | every field back to its default; the dialog flags are unchanged |
| `NoteFormState.NoteForm.Populate` | src/components/notes/NoteForm.tsx:42-58 | closed: nothing changes; open on a note: its fields are copied, with null content as "", and an empty or missing password as null; open for a new note: defaults, with the folder set to the selected one |
| `NoteFormState.NoteForm.HandleNoteDialogClose` | src/components/notes/NoteForm.tsx:71-75 | all fields reset, and both the open and creating flags are false |
| `NoteFormState.NoteForm.HandleSaveNote` | src/components/notes/NoteForm.tsx:77-118 | a blank title is refused first; protection with a null or empty password is refused next; otherwise `onSave` gets the fields unchanged (title untrimmed), the edited note's id, and a password only when protection is on |
| `NoteFormState.NoteForm.SetTitle` | src/components/notes/NoteForm.tsx:134 | sets the title only |
| `NoteFormState.NoteForm.SetContent` | src/components/notes/NoteForm.tsx:135 | sets the content only |
| `NoteFormState.NoteForm.SetPhotoUrl` | src/components/notes/NoteForm.tsx:136 | sets the photo URL only |
| `NoteFormState.NoteForm.SetVoiceUrl` | src/components/notes/NoteForm.tsx:137 | sets the voice URL only |
| `NoteFormState.NoteForm.SetFolderId` | src/components/notes/NoteForm.tsx:138 | sets the folder only |
| `NoteFormState.NoteForm.SetTags` | src/components/notes/NoteForm.tsx:139 | sets the tags only |
| `NoteFormState.NoteForm.SetPassword` | src/components/notes/NoteForm.tsx:140 | sets the password only |
| `NoteFormState.NoteForm.SetPasswordProtected` | src/components/notes/NoteForm.tsx:141 | sets the protection switch only |
| `NoteFormState.EditHashOnlyNote` | src/components/notes/NoteForm.tsx:44-95 | a hash-only protected note opened for editing is refused on save until a password is typed |
| `Auth.Step` | src/App.tsx:46-88 | the transition table: initial load sets authenticated to session presence and clears developer access; a session change does the same but keeps developer access while a session exists; login authenticates and grants developer access without a session; logout clears both; developer access implies authentication after every step |
| `Auth.RunConsistent` | src/App.tsx:46-88 | every run of events from consistent flags keeps developer access within authentication |
| `Auth.NoDeveloperAccessWithoutLogin` | src/App.tsx:49-62 | without a login, no run of events turns developer access on |
| `Auth.ProtectedRoute` | src/App.tsx:35-43 | the children render iff authenticated, otherwise a redirect to "/" |
| `Auth.AuthState.constructor` | src/App.tsx:46-47 | both flags start false |
| `Auth.AuthState.HandleInitialSession` | src/App.tsx:49-53 | authenticated iff a session exists, developer access false |
| `Auth.AuthState.HandleAuthStateChange` | src/App.tsx:57-62 | authenticated iff a session exists; developer access cleared without one, kept otherwise |
| `Auth.AuthState.Login` | src/App.tsx:67-76 | authenticated; developer access turned on when no backend session exists, otherwise kept as it was |
| `Auth.AuthState.Logout` | src/App.tsx:78-88 | under developer access both flags are cleared with no sign-out; otherwise the backend sign-out is called and authentication cleared |

## Left out

- Backend calls, query caching and invalidation, and toasts as UI are not modelled. Sessions, returned rows, errors and the current time are inputs; a toast is an outcome constructor or a count.
- The backend sorts rows by `created_at` descending. That sort is the backend's, so it is not modelled. The model proves that the client keeps the order it receives.
- `NoteList.TimestampLe`: `created_at` is compared as text in lexicographic order. This matches time order only for timestamps written in one fixed ISO 8601 format.
- `data || []`: a query that reports no error always returns a list in the model, so a null `data` is not modelled.
- `Text.Lower` lowers only the ASCII letters. Unicode case mapping is not modelled. `Text.IsSpace` uses the ECMAScript white-space set.
- Hashing, salting and password-strength checks are not modelled, because no code for them is part of this model.
- Async interleavings are not modelled. Each handler in src/App.tsx is one atomic step. This includes `login`'s `getSession` continuation, so a session change arriving between `login`'s two steps is not covered.
- The subscription cleanup (`unsubscribe`) in src/App.tsx is not modelled.
- `NoteSave.ApplySave`: for the hash and salt, `None` is read as an absent key, so the stored value is kept. An explicit `null` for these two, which no caller here sends, is not distinguished from an absent key.
- `NoteSave.ApplySave`: the value of `is_password_protected` on an inserted row is taken to be false. The column's default lives in the backend schema, which is not part of this model.
- The media components (voice recorder, photo upload, speech), the folder list, the search debounce timer and the purely presentational components are not part of this model.

/**
 * The editor state of src/components/notes/NoteForm.tsx: eight form fields,
 * filled from the edited note or reset when the dialog opens, cleared on
 * close, and validated before the save callback is called. The dialog's
 * `open` and `isCreating` flags belong to the parent; they are fields here
 * because the close handler sets them.
 */
module NoteFormState {
  import opened Wrappers
  import opened Text
  import opened NoteTypes

  /** What a press of Save does: one error toast, or a call of `onSave` with the form data. */
  datatype SaveOutcome =
    | TitleRequired      // "Note title is required"
    | PasswordRequired   // "Password is required when password protection is enabled"
    | SaveCalled(data: NoteFormData)

  class NoteForm {
    var open: bool
    var isCreating: bool

    var title: string
    var content: string
    var photoUrl: Option<string>
    var voiceUrl: Option<string>
    var folderId: Option<string>
    var tags: Option<seq<string>>
    var password: Option<string>
    var isPasswordProtected: bool

    /** Every form field holds its initial value (`resetNoteForm`). */
    predicate IsReset()
      reads this
    {
      && title == "" && content == "" && photoUrl == None && voiceUrl == None
      && folderId == None && tags == Some([]) && password == None && !isPasswordProtected
    }

    /** The component's first render: fields at their initial values. */
    constructor (open: bool, isCreating: bool)
      ensures IsReset()
      ensures this.open == open && this.isCreating == isCreating
    {
      this.open, this.isCreating := open, isCreating;
      title, content, photoUrl, voiceUrl := "", "", None, None;
      folderId, tags, password, isPasswordProtected := None, Some([]), None, false;
    }

    /** `resetNoteForm`: every form field back to its initial value; the dialog flags untouched. */
    method ResetNoteForm()
      modifies this
      ensures IsReset()
      ensures open == old(open) && isCreating == old(isCreating)
    {
      title := "";
      content := "";
      photoUrl := None;
      voiceUrl := None;
      folderId := None;
      tags := Some([]);
      password := None;
      isPasswordProtected := false;
    }

    /**
     * The populate effect. While the dialog is closed nothing changes. Open on
     * an existing note, the fields copy it (empty content for none, no
     * password for an empty one); open for a new note, the fields are reset and
     * the folder is the selected one.
     */
    method Populate(editingNote: Option<Note>, selectedFolderId: Option<string>)
      modifies this
      ensures open == old(open) && isCreating == old(isCreating)
      ensures !open ==> unchanged(this)
      ensures open && editingNote.Some? ==>
        var n := editingNote.value;
        && title == n.title && content == n.content.GetOr("")
        && photoUrl == n.photoUrl && voiceUrl == n.voiceUrl
        && folderId == n.folderId && tags == n.tags
        && isPasswordProtected == n.isPasswordProtected
        && password == (if Truthy(n.password) then n.password else None)
      ensures open && editingNote.None? ==>
        && folderId == selectedFolderId
        && title == "" && content == "" && photoUrl == None && voiceUrl == None
        && tags == Some([]) && password == None && !isPasswordProtected
    {
      if open {
        if editingNote.Some? {
          var n := editingNote.value;
          title := n.title;
          content := n.content.GetOr("");
          photoUrl := n.photoUrl;
          voiceUrl := n.voiceUrl;
          folderId := n.folderId;
          tags := n.tags;
          isPasswordProtected := n.isPasswordProtected;
          password := if Truthy(n.password) then n.password else None;
        } else {
          ResetNoteForm();
          folderId := selectedFolderId;
        }
      }
    }

    /** `handleNoteDialogClose`: fields reset, dialog closed, creation mode left. */
    method HandleNoteDialogClose()
      modifies this
      ensures IsReset() && !open && !isCreating
    {
      ResetNoteForm();
      open := false;
      isCreating := false;
    }

    /**
     * `handleSaveNote`: a blank title is refused first, then protection
     * without a password; otherwise `onSave` receives the fields as they are
     * (the title untrimmed), the edited note's id, and a password only when
     * protection is on. The form is not changed.
     */
    method HandleSaveNote(editingNote: Option<Note>) returns (outcome: SaveOutcome)
      ensures outcome == TitleRequired <==> Blank(title)
      ensures outcome == PasswordRequired <==> !Blank(title) && isPasswordProtected && !Truthy(password)
      ensures outcome.SaveCalled? ==>
        var d := outcome.data;
        && d.id == (if editingNote.Some? then Some(editingNote.value.id) else None)
        && d.title == title && d.content == content
        && d.photoUrl == photoUrl && d.voiceUrl == voiceUrl
        && d.folderId == folderId && d.tags == tags
        && d.password == (if isPasswordProtected then password else None)
        && d.passwordHash == None && d.passwordSalt == None
      ensures outcome.SaveCalled? && !isPasswordProtected ==> outcome.data.password == None
    {
      if Trim(title) == "" {
        return TitleRequired;
      }
      if isPasswordProtected && !Truthy(password) {
        return PasswordRequired;
      }
      var id := if editingNote.Some? then Some(editingNote.value.id) else None;
      outcome := SaveCalled(NoteFormData(id, title, content, photoUrl, voiceUrl, folderId, tags,
                                         if isPasswordProtected then password else None, None, None));
    }

    /** The field setters the dialog calls (`setNoteTitle` and the others). */
    method SetTitle(v: string)
      modifies this`title
      ensures title == v
    {
      title := v;
    }

    method SetContent(v: string)
      modifies this`content
      ensures content == v
    {
      content := v;
    }

    method SetPhotoUrl(v: Option<string>)
      modifies this`photoUrl
      ensures photoUrl == v
    {
      photoUrl := v;
    }

    method SetVoiceUrl(v: Option<string>)
      modifies this`voiceUrl
      ensures voiceUrl == v
    {
      voiceUrl := v;
    }

    method SetFolderId(v: Option<string>)
      modifies this`folderId
      ensures folderId == v
    {
      folderId := v;
    }

    method SetTags(v: seq<string>)
      modifies this`tags
      ensures tags == Some(v)
    {
      tags := Some(v);
    }

    method SetPassword(v: Option<string>)
      modifies this`password
      ensures password == v
    {
      password := v;
    }

    method SetPasswordProtected(v: bool)
      modifies this`isPasswordProtected
      ensures isPasswordProtected == v
    {
      isPasswordProtected := v;
    }
  }

  /**
   * A hash-only note opened for editing shows protection on and no password,
   * so saving it is refused until a password is typed.
   */
  method EditHashOnlyNote(n: Note) returns (outcome: SaveOutcome)
    requires n.isPasswordProtected && !Truthy(n.password) && !Blank(n.title)
    ensures outcome == PasswordRequired
  {
    var form := new NoteForm(true, false);
    form.Populate(Some(n), None);
    outcome := form.HandleSaveNote(Some(n));
  }
}

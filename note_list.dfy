/**
 * The note list of src/hooks/useNotes.ts: the query the client sends, the
 * normalisation of each returned row, the client-side tag and search filters,
 * and the derived list of distinct tags.
 */
module NoteList {
  import opened Wrappers
  import opened Text
  import opened NoteTypes

  // ---------------------------------------------------------------------------
  // Order of the rows
  // ---------------------------------------------------------------------------

  /** Lexicographic order on timestamp strings (ISO 8601 text sorts chronologically). */
  predicate TimestampLe(a: string, b: string) {
    if a == [] then true
    else if b == [] then false
    else if a[0] != b[0] then a[0] < b[0]
    else TimestampLe(a[1..], b[1..])
  }

  /** Ordered by `created_at` descending: no note is older than one after it. */
  ghost predicate NewestFirst(notes: seq<Note>) {
    forall i, j :: 0 <= i < j < |notes| ==> TimestampLe(notes[j].createdAt, notes[i].createdAt)
  }

  /** `a` is an order-preserving subsequence of `b`: `b` with some elements removed. */
  ghost predicate IsSubsequence(a: seq<Note>, b: seq<Note>)
    decreases |b|
  {
    if a == [] then true
    else if b == [] then false
    else (a[0] == b[0] && IsSubsequence(a[1..], b[1..])) || IsSubsequence(a, b[1..])
  }

  // ---------------------------------------------------------------------------
  // The query (evaluated by the backend)
  // ---------------------------------------------------------------------------

  /** `.eq("folder_id", f)`: the rows filed in folder `f`, in the order given. */
  function WithFolder(rows: seq<Note>, f: string): seq<Note> {
    if rows == [] then []
    else (if rows[0].folderId == Some(f) then [rows[0]] else []) + WithFolder(rows[1..], f)
  }

  /**
   * The rows the query returns. `table` is the session user's rows in the
   * order the backend sorts them (`created_at` descending); the folder
   * condition is added only when a folder id is selected and non-empty.
   */
  function FolderQuery(table: seq<Note>, selectedFolderId: Option<string>): seq<Note> {
    if Truthy(selectedFolderId) then WithFolder(table, selectedFolderId.value) else table
  }

  // ---------------------------------------------------------------------------
  // Normalisation of a returned row
  // ---------------------------------------------------------------------------

  /**
   * `{...row, folder_id: row.folder_id || null, tags: row.tags || [],
   *   is_password_protected: !!(row.password || row.password_hash)}`
   */
  function Normalise(row: Note): Note {
    row.(folderId := if Truthy(row.folderId) then row.folderId else None,
         tags := Some(TagsOrEmpty(row.tags)),
         isPasswordProtected := Truthy(row.password) || Truthy(row.passwordHash))
  }

  /** The normalisation, field by field. */
  lemma NormaliseFields(row: Note)
    ensures var n := Normalise(row);
      && n.tags == Some(TagsOrEmpty(row.tags))
      && (row.tags.Some? ==> n.tags == row.tags)
      && (Truthy(row.folderId) ==> n.folderId == row.folderId)
      && (!Truthy(row.folderId) ==> n.folderId == None)
      && (n.isPasswordProtected <==> Truthy(row.password) || Truthy(row.passwordHash))
      && n.id == row.id && n.title == row.title && n.content == row.content
      && n.photoUrl == row.photoUrl && n.voiceUrl == row.voiceUrl
      && n.password == row.password && n.passwordHash == row.passwordHash
      && n.passwordSalt == row.passwordSalt && n.createdAt == row.createdAt
      && n.updatedAt == row.updatedAt && n.userId == row.userId
  {
  }

  /** `rows.map(normalise)`. */
  function NormaliseAll(rows: seq<Note>): (r: seq<Note>)
    ensures |r| == |rows|
    ensures forall i :: 0 <= i < |rows| ==> r[i] == Normalise(rows[i])
  {
    if rows == [] then [] else [Normalise(rows[0])] + NormaliseAll(rows[1..])
  }

  // ---------------------------------------------------------------------------
  // Client-side filters
  // ---------------------------------------------------------------------------

  /** `note.tags && note.tags.includes(tag)`: exact, case-sensitive membership. */
  predicate HasTag(n: Note, tag: string) {
    n.tags.Some? && tag in n.tags.value
  }

  /** The search test for an already lowercased `term`, over the title or the non-empty content. */
  predicate MatchesTerm(n: Note, term: string) {
    || Contains(Lower(n.title), term)
    || (Truthy(n.content) && Contains(Lower(n.content.value), term))
  }

  /** `notes.filter(note => note.tags && note.tags.includes(tag))`. */
  function WithTag(notes: seq<Note>, tag: string): seq<Note> {
    if notes == [] then []
    else (if HasTag(notes[0], tag) then [notes[0]] else []) + WithTag(notes[1..], tag)
  }

  /** `notes.filter(...)` by the search test for the lowercased `term`. */
  function Matching(notes: seq<Note>, term: string): seq<Note> {
    if notes == [] then []
    else (if MatchesTerm(notes[0], term) then [notes[0]] else []) + Matching(notes[1..], term)
  }

  /**
   * Whether a note passes both filters: a missing or empty tag and an empty
   * search term filter nothing; the term is lowercased but not trimmed.
   */
  predicate Kept(n: Note, selectedTag: Option<string>, searchTerm: string) {
    && (!Truthy(selectedTag) || HasTag(n, selectedTag.value))
    && (searchTerm == "" || MatchesTerm(n, Lower(searchTerm)))
  }

  /** Reference definition of the client-side filtering: one pass keeping the notes `Kept` admits. */
  function Select(notes: seq<Note>, selectedTag: Option<string>, searchTerm: string): seq<Note> {
    if notes == [] then []
    else (if Kept(notes[0], selectedTag, searchTerm) then [notes[0]] else [])
         + Select(notes[1..], selectedTag, searchTerm)
  }

  /** What the list shows for a table and a selection of folder, tag and search term. */
  function Visible(table: seq<Note>, selectedFolderId: Option<string>, selectedTag: Option<string>,
                   searchTerm: string): seq<Note>
  {
    Select(NormaliseAll(FolderQuery(table, selectedFolderId)), selectedTag, searchTerm)
  }

  /**
   * The list query: fails before any table access without a session, passes a
   * backend error through, and otherwise normalises the returned rows and
   * filters them in two stages, by tag and then by search term.
   * `table` and `queryError` stand for the backend's answer to the query.
   */
  method FetchNotes(session: Option<Session>, table: seq<Note>, queryError: Option<string>,
                    selectedFolderId: Option<string>, selectedTag: Option<string>, searchTerm: string)
    returns (r: Result<seq<Note>, Error>)
    ensures session.None? ==> r == Failure(NotAuthenticated)
    ensures session.Some? && queryError.Some? ==> r == Failure(Backend(queryError.value))
    ensures session.Some? && queryError.None? ==>
      r == Success(Visible(table, selectedFolderId, selectedTag, searchTerm))
  {
    if session.None? {
      return Failure(NotAuthenticated);
    }
    var query := table;
    if Truthy(selectedFolderId) {
      query := WithFolder(query, selectedFolderId.value);
    }
    if queryError.Some? {
      return Failure(Backend(queryError.value));
    }
    var filteredNotes := NormaliseAll(query);
    ghost var fetched := filteredNotes;
    if Truthy(selectedTag) {
      filteredNotes := WithTag(filteredNotes, selectedTag.value);
    }
    if searchTerm != "" {
      var term := Lower(searchTerm);
      filteredNotes := Matching(filteredNotes, term);
    }
    SelectIsStaged(fetched, selectedTag, searchTerm);
    r := Success(filteredNotes);
  }

  // ---------------------------------------------------------------------------
  // Properties of the list
  // ---------------------------------------------------------------------------

  /** The tag stage of `FetchNotes`. */
  function TagStage(notes: seq<Note>, selectedTag: Option<string>): seq<Note> {
    if Truthy(selectedTag) then WithTag(notes, selectedTag.value) else notes
  }

  /** The search stage of `FetchNotes`. */
  function SearchStage(notes: seq<Note>, searchTerm: string): seq<Note> {
    if searchTerm == "" then notes else Matching(notes, Lower(searchTerm))
  }

  /** Filtering by tag and then by search term keeps exactly what the one-pass reference keeps. */
  lemma {:induction false} SelectIsStaged(notes: seq<Note>, selectedTag: Option<string>, searchTerm: string)
    ensures Select(notes, selectedTag, searchTerm) == SearchStage(TagStage(notes, selectedTag), searchTerm)
  {
    if notes != [] {
      SelectIsStaged(notes[1..], selectedTag, searchTerm);
      var h, t := notes[0], notes[1..];
      var staged := TagStage(notes, selectedTag);
      if Truthy(selectedTag) && !HasTag(h, selectedTag.value) {
        assert staged == TagStage(t, selectedTag);
      } else {
        assert staged == [h] + TagStage(t, selectedTag);
        assert staged[1..] == TagStage(t, selectedTag);
      }
    }
  }

  /** The tag filter and the search filter commute. */
  lemma {:induction false} TagAndSearchCommute(notes: seq<Note>, tag: string, term: string)
    ensures WithTag(Matching(notes, term), tag) == Matching(WithTag(notes, tag), term)
  {
    if notes != [] {
      TagAndSearchCommute(notes[1..], tag, term);
      var h, t := notes[0], notes[1..];
      var m := Matching(notes, term);
      var w := WithTag(notes, tag);
      if MatchesTerm(h, term) {
        assert m == [h] + Matching(t, term) && m[1..] == Matching(t, term);
      } else {
        assert m == Matching(t, term);
      }
      if HasTag(h, tag) {
        assert w == [h] + WithTag(t, tag) && w[1..] == WithTag(t, tag);
      } else {
        assert w == WithTag(t, tag);
      }
    }
  }

  /** A note is selected iff it is in the input and passes both filters. */
  lemma {:induction false} SelectMembership(notes: seq<Note>, selectedTag: Option<string>, searchTerm: string)
    ensures forall n :: n in Select(notes, selectedTag, searchTerm) <==> n in notes && Kept(n, selectedTag, searchTerm)
  {
    if notes != [] {
      SelectMembership(notes[1..], selectedTag, searchTerm);
      assert notes == [notes[0]] + notes[1..];
    }
  }

  /** The filters only remove notes: the selection is an order-preserving subsequence of its input. */
  lemma {:induction false} SelectIsSubsequence(notes: seq<Note>, selectedTag: Option<string>, searchTerm: string)
    ensures IsSubsequence(Select(notes, selectedTag, searchTerm), notes)
  {
    if notes != [] {
      SelectIsSubsequence(notes[1..], selectedTag, searchTerm);
      var s := Select(notes, selectedTag, searchTerm);
      if Kept(notes[0], selectedTag, searchTerm) {
        assert s[0] == notes[0] && s[1..] == Select(notes[1..], selectedTag, searchTerm);
      } else {
        assert s == Select(notes[1..], selectedTag, searchTerm);
        assert s == [] || IsSubsequence(s, notes[1..]);
      }
    }
  }

  /** Removing elements from a newest-first list leaves it newest-first (for the one-pass selection). */
  lemma {:induction false} SelectNewestFirst(notes: seq<Note>, selectedTag: Option<string>, searchTerm: string)
    requires NewestFirst(notes)
    ensures NewestFirst(Select(notes, selectedTag, searchTerm))
  {
    if notes != [] {
      var t := notes[1..];
      assert NewestFirst(t) by {
        forall i, j | 0 <= i < j < |t| ensures TimestampLe(t[j].createdAt, t[i].createdAt) {
          assert t[i] == notes[i + 1] && t[j] == notes[j + 1];
        }
      }
      SelectNewestFirst(t, selectedTag, searchTerm);
      SelectMembership(t, selectedTag, searchTerm);
      var rest := Select(t, selectedTag, searchTerm);
      if Kept(notes[0], selectedTag, searchTerm) {
        var s := [notes[0]] + rest;
        forall i, j | 0 <= i < j < |s| ensures TimestampLe(s[j].createdAt, s[i].createdAt) {
          if i == 0 {
            assert s[j] == rest[j - 1] && s[j] in t;
            var k :| 0 <= k < |t| && t[k] == s[j];
            assert notes[k + 1] == s[j];
          } else {
            assert s[i] == rest[i - 1] && s[j] == rest[j - 1];
          }
        }
      }
    }
  }

  /** The folder condition keeps exactly the rows of that folder. */
  lemma {:induction false} WithFolderMembership(rows: seq<Note>, f: string)
    ensures forall n :: n in WithFolder(rows, f) <==> n in rows && n.folderId == Some(f)
  {
    if rows != [] {
      WithFolderMembership(rows[1..], f);
      assert rows == [rows[0]] + rows[1..];
    }
  }

  /** The folder condition keeps a newest-first table newest-first. */
  lemma {:induction false} WithFolderNewestFirst(rows: seq<Note>, f: string)
    requires NewestFirst(rows)
    ensures NewestFirst(WithFolder(rows, f))
  {
    if rows != [] {
      var t := rows[1..];
      assert NewestFirst(t) by {
        forall i, j | 0 <= i < j < |t| ensures TimestampLe(t[j].createdAt, t[i].createdAt) {
          assert t[i] == rows[i + 1] && t[j] == rows[j + 1];
        }
      }
      WithFolderNewestFirst(t, f);
      WithFolderMembership(t, f);
      var rest := WithFolder(t, f);
      if rows[0].folderId == Some(f) {
        var s := [rows[0]] + rest;
        forall i, j | 0 <= i < j < |s| ensures TimestampLe(s[j].createdAt, s[i].createdAt) {
          if i == 0 {
            assert s[j] == rest[j - 1] && s[j] in t;
            var k :| 0 <= k < |t| && t[k] == s[j];
            assert rows[k + 1] == s[j];
          } else {
            assert s[i] == rest[i - 1] && s[j] == rest[j - 1];
          }
        }
      }
    }
  }

  /**
   * A note is listed iff it is the normalisation of a row the query returned
   * and it passes the tag and search filters.
   */
  lemma VisibleMembership(table: seq<Note>, selectedFolderId: Option<string>, selectedTag: Option<string>,
                          searchTerm: string, n: Note)
    ensures n in Visible(table, selectedFolderId, selectedTag, searchTerm) <==>
      Kept(n, selectedTag, searchTerm) &&
      exists row :: row in FolderQuery(table, selectedFolderId) && n == Normalise(row)
  {
    var rows := FolderQuery(table, selectedFolderId);
    SelectMembership(NormaliseAll(rows), selectedTag, searchTerm);
    if n in NormaliseAll(rows) {
      var i :| 0 <= i < |rows| && NormaliseAll(rows)[i] == n;
      assert rows[i] in rows;
    }
    if exists row :: row in rows && n == Normalise(row) {
      var row :| row in rows && n == Normalise(row);
      var i :| 0 <= i < |rows| && rows[i] == row;
      assert NormaliseAll(rows)[i] == n;
    }
  }

  /**
   * Every listed note is in normal form: its tag list is present, an empty
   * folder id reads as none, and it is marked protected iff it has a legacy
   * password or a password hash.
   */
  lemma VisibleNormalised(table: seq<Note>, selectedFolderId: Option<string>, selectedTag: Option<string>,
                          searchTerm: string, n: Note)
    requires n in Visible(table, selectedFolderId, selectedTag, searchTerm)
    ensures n.tags.Some?
    ensures n.folderId != Some("")
    ensures n.isPasswordProtected <==> Truthy(n.password) || Truthy(n.passwordHash)
    ensures exists row :: row in table && n == Normalise(row)
  {
    VisibleMembership(table, selectedFolderId, selectedTag, searchTerm, n);
    var row :| row in FolderQuery(table, selectedFolderId) && n == Normalise(row);
    if Truthy(selectedFolderId) {
      WithFolderMembership(table, selectedFolderId.value);
    }
  }

  /** With a folder selected, every listed note is in exactly that folder. */
  lemma VisibleInFolder(table: seq<Note>, selectedFolderId: Option<string>, selectedTag: Option<string>,
                        searchTerm: string, n: Note)
    requires Truthy(selectedFolderId)
    requires n in Visible(table, selectedFolderId, selectedTag, searchTerm)
    ensures n.folderId == selectedFolderId
  {
    VisibleMembership(table, selectedFolderId, selectedTag, searchTerm, n);
    WithFolderMembership(table, selectedFolderId.value);
  }

  /** With no folder, tag or search term selected, every row is listed, normalised, in the backend's order. */
  lemma {:induction false} NoSelectionListsAll(table: seq<Note>, selectedFolderId: Option<string>,
                                               selectedTag: Option<string>)
    requires !Truthy(selectedFolderId) && !Truthy(selectedTag)
    ensures Visible(table, selectedFolderId, selectedTag, "") == NormaliseAll(table)
  {
    SelectAllKept(NormaliseAll(table), selectedTag);
  }

  lemma {:induction false} SelectAllKept(notes: seq<Note>, selectedTag: Option<string>)
    requires !Truthy(selectedTag)
    ensures Select(notes, selectedTag, "") == notes
  {
    if notes != [] {
      SelectAllKept(notes[1..], selectedTag);
      assert notes == [notes[0]] + notes[1..];
    }
  }

  /** The list is an order-preserving subsequence of the normalised rows the query returned. */
  lemma VisibleIsSubsequence(table: seq<Note>, selectedFolderId: Option<string>, selectedTag: Option<string>,
                             searchTerm: string)
    ensures IsSubsequence(Visible(table, selectedFolderId, selectedTag, searchTerm),
                          NormaliseAll(FolderQuery(table, selectedFolderId)))
  {
    SelectIsSubsequence(NormaliseAll(FolderQuery(table, selectedFolderId)), selectedTag, searchTerm);
  }

  /** When the backend returns the rows newest first, the list is newest first. */
  lemma VisibleNewestFirst(table: seq<Note>, selectedFolderId: Option<string>, selectedTag: Option<string>,
                           searchTerm: string)
    requires NewestFirst(table)
    ensures NewestFirst(Visible(table, selectedFolderId, selectedTag, searchTerm))
  {
    var rows := FolderQuery(table, selectedFolderId);
    if Truthy(selectedFolderId) {
      WithFolderNewestFirst(table, selectedFolderId.value);
    }
    var normalised := NormaliseAll(rows);
    assert NewestFirst(normalised) by {
      forall i, j | 0 <= i < j < |normalised|
        ensures TimestampLe(normalised[j].createdAt, normalised[i].createdAt)
      {
        assert normalised[i].createdAt == rows[i].createdAt;
        assert normalised[j].createdAt == rows[j].createdAt;
      }
    }
    SelectNewestFirst(normalised, selectedTag, searchTerm);
  }

  // ---------------------------------------------------------------------------
  // allTags: the distinct non-empty tags, in order of first occurrence
  // ---------------------------------------------------------------------------

  /** `notes.flatMap(note => note.tags || [])`. */
  function FlatTags(notes: seq<Note>): seq<string> {
    if notes == [] then [] else TagsOrEmpty(notes[0].tags) + FlatTags(notes[1..])
  }

  /** `.filter(Boolean)`: the non-empty strings, in order. */
  function NonEmpty(s: seq<string>): (r: seq<string>)
    ensures |r| <= |s|
    ensures forall x :: x in r <==> x in s && x != ""
  {
    if s == [] then []
    else
      assert s == [s[0]] + s[1..];
      (if s[0] != "" then [s[0]] else []) + NonEmpty(s[1..])
  }

  /**
   * `.filter(Boolean)` distributes over concatenation and keeps a single
   * string iff it is non-empty: the kept strings stay in order, repeats
   * included.
   */
  lemma {:induction false} NonEmptyConcat(a: seq<string>, b: seq<string>)
    ensures NonEmpty(a + b) == NonEmpty(a) + NonEmpty(b)
  {
    if a == [] {
      assert a + b == b;
    } else {
      assert (a + b)[0] == a[0];
      assert (a + b)[1..] == a[1..] + b;
      NonEmptyConcat(a[1..], b);
    }
  }

  ghost predicate NoDuplicates(s: seq<string>) {
    forall i, j :: 0 <= i < j < |s| ==> s[i] != s[j]
  }

  /** `Array.from(new Set(s))`: each element once, at its first occurrence. */
  function Distinct(s: seq<string>): (r: seq<string>)
    ensures NoDuplicates(r)
    ensures forall x :: x in r <==> x in s
  {
    if s == [] then []
    else
      var p := s[..|s| - 1];
      var d := Distinct(p);
      assert s == p + [s[|s| - 1]];
      if s[|s| - 1] in d then d else d + [s[|s| - 1]]
  }

  /** The position of the first occurrence of `x` in `s`. */
  function FirstIndex(s: seq<string>, x: string): (i: nat)
    requires x in s
    ensures i < |s| && s[i] == x && x !in s[..i]
  {
    if s[0] == x then 0
    else
      var i := FirstIndex(s[1..], x);
      assert s[..i + 1] == [s[0]] + s[1..][..i];
      i + 1
  }

  /** A first occurrence is determined by its defining property. */
  lemma FirstIndexUnique(s: seq<string>, x: string, i: nat)
    requires i < |s| && s[i] == x && x !in s[..i]
    ensures FirstIndex(s, x) == i
  {
  }

  /** `Distinct` lists its elements in the order of their first occurrence in the input. */
  lemma {:induction false} DistinctKeepsFirstOccurrenceOrder(s: seq<string>)
    ensures forall i, j :: 0 <= i < j < |Distinct(s)| ==>
      FirstIndex(s, Distinct(s)[i]) < FirstIndex(s, Distinct(s)[j])
  {
    if s != [] {
      var p := s[..|s| - 1];
      var x := s[|s| - 1];
      var d := Distinct(p);
      DistinctKeepsFirstOccurrenceOrder(p);
      forall y | y in p ensures FirstIndex(s, y) == FirstIndex(p, y) {
        var k := FirstIndex(p, y);
        assert s[..k] == p[..k];
        FirstIndexUnique(s, y, k);
      }
      if x !in d {
        assert s[..|s| - 1] == p;
        FirstIndexUnique(s, x, |s| - 1);
        var r := d + [x];
        assert r == Distinct(s);
        forall i, j | 0 <= i < j < |r| ensures FirstIndex(s, r[i]) < FirstIndex(s, r[j]) {
          assert r[i] == d[i] && r[i] in p;
          if j < |d| { assert r[j] == d[j] && r[j] in p; } else { assert r[j] == x; }
        }
      }
    }
  }

  /** `allTags`: the distinct non-empty tags of the listed notes. */
  function AllTags(notes: seq<Note>): seq<string> {
    Distinct(NonEmpty(FlatTags(notes)))
  }

  /** A string is among the flattened tags iff some note carries it. */
  lemma {:induction false} FlatTagsMembership(notes: seq<Note>, t: string)
    ensures t in FlatTags(notes) <==> exists n :: n in notes && t in TagsOrEmpty(n.tags)
  {
    if notes != [] {
      FlatTagsMembership(notes[1..], t);
      assert notes == [notes[0]] + notes[1..];
    }
  }

  /**
   * `allTags` holds no duplicates and no empty string; it holds a string iff
   * that string is a non-empty tag of some note; and it lists the tags in the
   * order of their first occurrence in the flattened, non-empty tag lists.
   */
  lemma AllTagsSpec(notes: seq<Note>)
    ensures NoDuplicates(AllTags(notes))
    ensures "" !in AllTags(notes)
    ensures forall t :: t in AllTags(notes) <==> t != "" && exists n :: n in notes && t in TagsOrEmpty(n.tags)
    ensures forall i, j :: 0 <= i < j < |AllTags(notes)| ==>
      FirstIndex(NonEmpty(FlatTags(notes)), AllTags(notes)[i]) < FirstIndex(NonEmpty(FlatTags(notes)), AllTags(notes)[j])
  {
    forall t ensures t in AllTags(notes) <==> t != "" && exists n :: n in notes && t in TagsOrEmpty(n.tags) {
      FlatTagsMembership(notes, t);
    }
    DistinctKeepsFirstOccurrenceOrder(NonEmpty(FlatTags(notes)));
  }
}

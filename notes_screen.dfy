// The notes list screen: the search filter, the delete confirmation and
// what the screen shows for a given list and query.
module NotesScreen {
  import opened Wrappers
  import opened Text
  import opened Notes
  import NoteList

  // ---------------------------------------------------------------------
  // Search

  /** `note.title.toLowerCase().includes(query) ||
      note.content.toLowerCase().includes(query)`, for an already
      lowercased `query`. */
  predicate Matches(note: Note, query: string)
    ensures Matches(note, query) <==>
              (exists i :: OccursAt(ToLower(note.title), query, i)) ||
              (exists i :: OccursAt(ToLower(note.content), query, i))
    ensures query == [] ==> Matches(note, query)
  {
    Contains(ToLower(note.title), query) || Contains(ToLower(note.content), query)
  }

  /** `filteredNotes`: with a blank query the notes themselves; otherwise
      the notes whose lowercased title or content contains the lowercased
      query, untrimmed, in their order. */
  function FilteredNotes(notes: seq<Note>, searchQuery: string): (r: seq<Note>)
    ensures IsBlank(searchQuery) ==> r == notes
    ensures NoteList.IsSubsequence(r, notes)
    ensures !IsBlank(searchQuery) ==>
              forall n :: n in r <==> n in notes && Matches(n, ToLower(searchQuery))
    ensures !IsBlank(searchQuery) ==>
              |r| == NoteList.Count(notes, (n: Note) => Matches(n, ToLower(searchQuery)))
  {
    if Trim(searchQuery) == [] then
      NoteList.SubsequenceReflexive(notes);
      notes
    else
      var query := ToLower(searchQuery);
      NoteList.Filter(notes, (n: Note) => Matches(n, query))
  }

  /** Two queries that differ only in the case of their letters select the
      same notes. */
  lemma CaseInsensitive(notes: seq<Note>, q1: string, q2: string)
    requires ToLower(q1) == ToLower(q2)
    ensures FilteredNotes(notes, q1) == FilteredNotes(notes, q2)
  {
    BlankIffLowerBlank(q1);
    BlankIffLowerBlank(q2);
  }

  /** A non-blank query is searched for as typed, surrounding spaces
      included: "milk" finds a note whose content is "milk", " milk" does
      not. */
  lemma {:induction false} QueryIsNotTrimmed()
    ensures var n := Note("1", "", "milk", 0, 0);
            FilteredNotes([n], "milk") == [n] && FilteredNotes([n], " milk") == []
  {
    var n := Note("1", "", "milk", 0, 0);
    assert ToLower("milk") == "milk";
    assert OccursAt("milk", "milk", 0);
    assert Matches(n, "milk");
    assert !IsBlank("milk") by { assert !IsWhitespace("milk"[0]); }
    assert !IsBlank(" milk") by { assert !IsWhitespace(" milk"[1]); }
    assert ToLower(" milk") == " milk";
    assert !Matches(n, " milk");
  }

  /** "mil" occurs in the lowercased content of "Shopping"/"milk". */
  lemma ShoppingMatches()
    ensures Matches(Note("1", "Shopping", "milk", 0, 0), "mil")
  {
    assert ToLower("milk") == "milk";
    assert OccursAt("milk", "mil", 0);
  }

  /** "mil" occurs in neither "work" nor "report". */
  lemma WorkDoesNotMatch()
    ensures !Matches(Note("2", "Work", "report", 0, 0), "mil")
  {
    assert ToLower("Work") == "work";
    assert ToLower("report") == "report";
    forall i | 0 <= i < |"work"| ensures !OccursAt("work", "mil", i) {
      assert "work"[i] != 'm';
    }
    forall i | 0 <= i < |"report"| ensures !OccursAt("report", "mil", i) {
      assert "report"[i] != 'm';
    }
  }

  /** Two notes, "Shopping"/"milk" and "Work"/"report": the query "mil"
      keeps only the first, the empty query keeps both in order. */
  lemma {:induction false} SearchExample()
    ensures var shopping := Note("1", "Shopping", "milk", 0, 0);
            var work := Note("2", "Work", "report", 0, 0);
            FilteredNotes([shopping, work], "mil") == [shopping] &&
            FilteredNotes([shopping, work], "") == [shopping, work]
  {
    var shopping := Note("1", "Shopping", "milk", 0, 0);
    var work := Note("2", "Work", "report", 0, 0);
    assert ToLower("mil") == "mil";
    assert !IsBlank("mil") by { assert !IsWhitespace("mil"[0]); }
    ShoppingMatches();
    WorkDoesNotMatch();
    var p := (n: Note) => Matches(n, "mil");
    assert [shopping, work][1..] == [work];
    assert [work][1..] == [];
    assert NoteList.Filter([work], p) == [];
    assert NoteList.Filter([shopping, work], p) == [shopping];
  }

  // ---------------------------------------------------------------------
  // Delete confirmation

  /** The two buttons of the confirmation dialog. */
  datatype DialogButton = Cancel | Delete

  /** The dialog's question: it names the note by its title, or calls it
      "this note" when the title is empty. */
  function ConfirmationMessage(title: string): (m: string)
    ensures title != "" ==> |m| == 35 + |title|
    ensures title == "" ==> |m| == 35 + |"this note"|
    ensures m[..33] == "Are you sure you want to delete \""
    ensures m[|m| - 2..] == "\"?"
  {
    "Are you sure you want to delete \"" + (if title == "" then "this note" else title) + "\"?"
  }

  /** The question names the note's title, or "this note" when the title is
      empty. */
  lemma ConfirmationNamesNote(title: string)
    ensures title != "" ==> OccursAt(ConfirmationMessage(title), title, 33)
    ensures title == "" ==> OccursAt(ConfirmationMessage(title), "this note", 33)
  {
    var m := ConfirmationMessage(title);
    var name := if title == "" then "this note" else title;
    assert |"Are you sure you want to delete \""| == 33;
    assert m[33..33 + |name|] == name;
  }

  /** `handleDelete(id, title)` followed by a press on `button`: only Delete
      invokes `onDeleteNote`, once, with the tapped note's id; Cancel
      invokes nothing. */
  function DeleteDialogEffects(id: string, button: DialogButton): (r: seq<Effect>)
    ensures r != [] <==> button == Delete
    ensures forall e :: e in r ==> e == DeleteNote(id)
    ensures |r| <= 1
  {
    match button
    case Cancel => []
    case Delete => [DeleteNote(id)]
  }

  /** Confirming the delete of a listed note, then carrying the effect out
      on the collection, removes that note and keeps every note with
      another id. */
  lemma {:induction false} ConfirmedDeleteRemovesNote(notes: seq<Note>, item: Note)
    requires item in notes
    ensures var e := DeleteDialogEffects(item.id, Delete)[0];
            e.DeleteNote? &&
            item !in NoteList.RemoveById(notes, e.id) &&
            forall n :: n in notes && n.id != item.id ==> n in NoteList.RemoveById(notes, e.id)
  {
    assert DeleteDialogEffects(item.id, Delete)[0] in DeleteDialogEffects(item.id, Delete);
  }

  // ---------------------------------------------------------------------
  // What the screen shows

  /** The two texts of the empty state: "No notes found" when there is a
      search query, "No notes yet" otherwise. */
  datatype EmptyMessage = NoNotesFound | NoNotesYet

  /** The header's count, the empty state when there is one, and the notes
      the list renders (none when the empty state shows). */
  datatype NotesView = NotesView(headerCount: nat, emptyState: Option<EmptyMessage>, listed: seq<Note>)

  /** The empty state shown for a filtered list and a query: none when
      something matched; otherwise chosen by whether the raw query string
      is non-empty (a query of spaces counts as a query). */
  function EmptyState(filtered: seq<Note>, searchQuery: string): (e: Option<EmptyMessage>)
    ensures e.None? <==> filtered != []
    ensures e == Some(NoNotesFound) <==> filtered == [] && searchQuery != ""
    ensures e == Some(NoNotesYet) <==> filtered == [] && searchQuery == ""
  {
    if |filtered| != 0 then None
    else if searchQuery != "" then Some(NoNotesFound)
    else Some(NoNotesYet)
  }

  /** The screen as written: the empty state follows `filteredNotes`, but
      the list is given the full `notes`, and the header counts `notes`. */
  function RenderAsWritten(notes: seq<Note>, searchQuery: string): (v: NotesView)
    ensures v.headerCount == |notes|
    ensures v.emptyState.Some? <==> FilteredNotes(notes, searchQuery) == []
    ensures v.emptyState == Some(NoNotesFound) <==>
              FilteredNotes(notes, searchQuery) == [] && searchQuery != ""
    ensures v.emptyState.None? ==> v.listed == notes
    ensures v.emptyState.Some? ==> v.listed == []
  {
    var filtered := FilteredNotes(notes, searchQuery);
    var empty := EmptyState(filtered, searchQuery);
    NotesView(|notes|, empty, if empty.None? then notes else [])
  }

  /** With the query "mil" over "Shopping"/"milk" and "Work"/"report", the
      list as written still renders both notes although only one matches. */
  lemma {:induction false} RenderedListIgnoresSearch()
    ensures var shopping := Note("1", "Shopping", "milk", 0, 0);
            var work := Note("2", "Work", "report", 0, 0);
            var v := RenderAsWritten([shopping, work], "mil");
            v.listed == [shopping, work] && work !in FilteredNotes([shopping, work], "mil")
  {
    SearchExample();
  }

  /** The screen as intended: the list renders `filteredNotes`. */
  function Render(notes: seq<Note>, searchQuery: string): (v: NotesView)
    ensures v.listed == FilteredNotes(notes, searchQuery)
    ensures v.headerCount == |notes|
    ensures v.emptyState.Some? <==> v.listed == []
    ensures v.emptyState == Some(NoNotesFound) <==> v.listed == [] && searchQuery != ""
    ensures NoteList.IsSubsequence(v.listed, notes)
    ensures IsBlank(searchQuery) ==> v.listed == notes
    ensures !IsBlank(searchQuery) ==>
              forall n :: n in v.listed <==> n in notes && Matches(n, ToLower(searchQuery))
  {
    var filtered := FilteredNotes(notes, searchQuery);
    NotesView(|notes|, EmptyState(filtered, searchQuery), filtered)
  }

  /** The corrected screen lists exactly the matching notes: for the query
      "mil" over "Shopping"/"milk" and "Work"/"report", only "Shopping". */
  lemma {:induction false} RenderListsOnlyMatches()
    ensures var shopping := Note("1", "Shopping", "milk", 0, 0);
            var work := Note("2", "Work", "report", 0, 0);
            Render([shopping, work], "mil").listed == [shopping]
  {
    SearchExample();
  }
}
